# Hubdrive extraction engine in Dafny

This project models the extraction engine of the Hubdrive/HubCloud link
resolver (`api/index.js`). Given a Hubdrive page URL, the engine:

- finds the HubCloud link on that page;
- resolves the HubCloud file-information page from it (stage one);
- reads the page header and the file size;
- turns every download button on that page into a typed, labelled candidate
  (stage two).

BuzzServer and 10Gbps buttons are resolved further by their redirect
protocols. Everything else keeps the button's href.

The model is purely functional. The network and the HTML parser are inputs:
a `Net` value carries three oracle functions.

- `fetch`: a GET that follows redirects. It yields the parsed page or the
  message of the exception it threw.
- `probe`: a GET with redirects disabled. It yields the response headers, or
  nothing when the request threw.
- `baseOf`: `getBaseUrl`.

A parsed page is a `Document` record. It holds the attributes and texts the
code selects with cheerio: the `#download` href, the primary-button href, the
`i#size` text, the `div.card-header` text and the buttons in page order. Each
extractor also returns the list of requests it sent. That list is what lets
the model state how many requests a protocol makes and that a hard stop makes
no further ones.

Modules, leaves first:

- `Wrappers`: `Option` and `Result`.
- `Text`: the JavaScript string operations the engine uses. These are
  `includes`, `indexOf`, ASCII case folding, `trim` (the ECMAScript whitespace
  set), `join`, and `split(sep)[1]`.
- `Title`: `getIndexQuality`, `cleanTitle` and the label suffix.
- `Links`: stage-one href resolution.
- `Providers`: button classification.
- `Web`: pages, headers, oracles and the request log.
- `Redirects`: the BuzzServer and 10Gbps protocols.
- `Extractor`: the button loop and both `getUrl` methods.

Behaviour of the code that the model keeps as written:

- A 10Gbps walk that does not end at a `link=` location falls back to the
  button's original href, not to the last location followed.
- A relative BuzzServer header is appended to the button's base origin by
  plain concatenation, with no slash handling.
- The classification patterns are not mutually exclusive. For example,
  "Download File BuzzServer" matches two patterns, and the first test in the
  chain wins.
- An empty `#download` href with a non-empty base resolves to the base plus
  "/". So "No download link found" needs both to be empty.
- Buttons of unknown providers keep their href. No generic redirect is tried.
- The vocabulary entry "WEB-DL" can never match, because the parts are split
  on '-'. Its "WEB" half still matches the entry "WEB".

Case-insensitive matching is modelled by ASCII lower-casing. This is exact for
the patterns used. A regular expression with the `i` flag and without `u`
never folds a non-ASCII character to an ASCII one. `toLowerCase` maps only
U+0130 (to 'i' plus a combining dot) and U+212A (to 'k') into ASCII. No tag
contains 'k', and no tag ends in 'i', so the combining dot would always break
a match.

## Model

| member | source | states |
|---|---|---|
| `Title.IndexQuality` | api/index.js:30-38 | For an empty header, or one with no run of 3-4 digits directly followed by p/P, the result is 1080. Otherwise it is the value of the leftmost such run, with four digits preferred at that start. The result lies in 0..9999. |
| `Title.FirstTagFrom` | api/index.js:33 | The leftmost start of a `(\d{3,4})[pP]` match at or after a position, or none when no match starts there or later. |
| `Title.DigitsBound` | api/index.js:34 | `parseInt` of n decimal digits is below 10^n, which bounds the quality by 9999. |
| `Title.IndexQualityExample` | api/index.js:30-38 | "Show.720P" has quality 720: an upper-case P counts, and the first four characters start no match. |
| `Title.Split` | api/index.js:44 | Splitting on '.', '-' and '_' gives at least one part, and no part contains a separator. |
| `Title.SplitJoin` | api/index.js:44 | Joining the parts with '.' gives back the header with each separator written as '.'. No character other than a separator is lost. |
| `Title.SplitWord` | api/index.js:44 | A separator-free string is one part. |
| `Title.SplitSeparated` | api/index.js:44 | The parts of `a + sep + b` are the parts of `a` followed by the parts of `b`. |
| `Title.EndTagsCombined` | api/index.js:67-71 | The source runs three separate `some` checks (subtitle, audio, codec). They hold exactly when a part has a tag from the combined vocabulary. |
| `Title.WebDlNeverMatches` | api/index.js:44-47 | No part of any header contains "WEB-DL" in any letter case, so that vocabulary entry never matches. |
| `Title.FirstTagged` | api/index.js:63-65 | `findIndex`: the first part with a tag from the vocabulary, and no earlier part has one; none when no part has one. |
| `Title.LastTagged` | api/index.js:67-71 | `findLastIndex`: the last part with a tag, and no later part has one; none when no part has one. |
| `Title.FirstTaggedUnique` | api/index.js:63-65 | The forward search returns exactly the first tagged part. It returns nothing exactly when no part is tagged. |
| `Title.LastTaggedUnique` | api/index.js:67-71 | The backward search returns exactly the last tagged part. |
| `Title.LastThree` | api/index.js:78 | `slice(-3)`: the last three parts, or all of them when there are fewer. |
| `Title.CleanPartsSpec` | api/index.js:63-79 | Let s be the first part with a quality tag and e the last part with an end tag. If e >= s, the result is parts s..e joined by '.'. If there is no e, or e < s, it is parts s..end. Without s it is the last three parts. |
| `Title.CleanPartsRange` | api/index.js:73-74 | With a first quality-tagged part s and a last end-tagged part e >= s, the result is parts s..e joined by '.'. |
| `Title.CleanPartsToEnd` | api/index.js:75-76 | With a first quality-tagged part s and no end-tagged part at or after it, the result is parts s..end joined by '.'. |
| `Title.CleanPartsNoStart` | api/index.js:77-78 | With no quality-tagged part, the result is the last three parts joined by '.'. |
| `Title.CleanTitle` | api/index.js:40-79 | An empty header gives "". Otherwise the three range rules apply, with the source's quality vocabulary opening the range and its audio, subtitle and codec vocabularies closing it. |
| `Title.BracketJoin` | api/index.js:154 | For a non-empty list, "[" + join("][") + "]" equals each item in its own brackets, concatenated. |
| `Title.LabelString` | api/index.js:150-154 | The result is "" exactly when the title fragment and the size are both empty. Otherwise it holds the non-empty ones, each in brackets, title first. |
| `Text.Contains` | api/index.js:109 | `includes`: true exactly when the pattern occurs at some index. |
| `Text.ContainsIgnoreCaseSpec` | api/index.js:64 | `part.toLowerCase().includes(tag.toLowerCase())`, and `/…/i` for a literal pattern, hold exactly when the pattern matches somewhere with each character compared case-blind. |
| `Text.JoinLength` | api/index.js:74 | `join(sep)` of n parts is as long as the parts together plus n-1 separators. |
| `Text.JoinCons` | api/index.js:74 | The join of a part followed by a non-empty list is that part, the separator, and the join of the list. |
| `Text.JoinSnoc` | api/index.js:74 | Appending a part to a non-empty list appends the separator and that part to the join. |
| `Text.IndexOfFrom` | api/index.js:256 | The first occurrence at or after a position, with no earlier occurrence; none when there is no occurrence. |
| `Text.Trim` | api/index.js:165 | `trim`: the result is a contiguous slice of the input. Only whitespace was removed around it, and it neither starts nor ends with whitespace. |
| `Text.TrimIdempotent` | api/index.js:178 | Trimming a trimmed string changes nothing. |
| `Text.SecondField` | api/index.js:264 | `split('link=')[1]`: the input is pre + "link=" + r + post. Here pre has no marker, r has no marker, and post is empty or starts with the marker. |
| `Links.DropTrailingSlash` | api/index.js:120 | `replace(/\/$/, '')`: exactly one trailing '/' is removed when there is one, and the string is unchanged exactly when it has none. |
| `Links.DropLeadingSlash` | api/index.js:120 | `replace(/^\//, '')`: exactly one leading '/' is removed when there is one, and the string is unchanged exactly when it has none. |
| `Links.ResolveHref` | api/index.js:117-123 | An href starting with "http" is kept. So is any href when the base is empty. Otherwise the result is the base without one trailing slash, then '/', then the href without one leading slash. The result is empty exactly when both the href and the base are empty. |
| `Links.JoinSingleSlash` | api/index.js:120 | With at most one slash on each side of the seam, the joined address has exactly one '/' between the origin and the path. |
| `Links.ResolveRelativeExample` | api/index.js:117-123 | "/path/x" against "https://host.com/" resolves to "https://host.com/path/x". |
| `Links.ResolveAbsoluteExample` | api/index.js:117-118 | "https://other.com/x" passes through unchanged against "https://host.com". |
| `Links.ResolveProtocolRelativeExample` | api/index.js:120 | "//cdn/x" against "https://h" gives "https://h//cdn/x": only one slash is removed from the href. |
| `Providers.Classify` | api/index.js:173-300 | The chain is matched case-insensitively in the order FSL Server, Download File, BuzzServer, pixeldra/pixel, S3 Server, 10Gbps. The result's own pattern matches, and no earlier pattern does. The result is Other only when none match. |
| `Providers.ClassifyIsFirstMatch` | api/index.js:173-241 | The converse: a provider whose pattern matches, with no earlier pattern matching, is the classification. |
| `Providers.PixelSubsumes` | api/index.js:225 | The `pixeldra\|pixel` test holds exactly when the text contains "pixel" in any case. |
| `Providers.ClassifyIgnoresCase` | api/index.js:173-241 | Lower-casing the button text does not change its classification. |
| `Redirects.BuzzTarget` | api/index.js:196 | A non-empty `location` wins. Otherwise `hx-redirect` is used, and a missing header counts as empty. |
| `Redirects.Absolute` | api/index.js:198 | A value starting with "http" is kept. Any other value is appended to the button's base with no slash handling. |
| `Redirects.BuzzResolve` | api/index.js:189-224 | Exactly one probe is sent, to href + "/download". The URL is resolved exactly when that probe answered with a non-empty header. It is then the header made absolute. Otherwise it is the original href, including when the request threw. |
| `Redirects.BuzzLocationWins` | api/index.js:196 | With the same non-empty `location`, any two `hx-redirect` values give the same BuzzServer result. |
| `Redirects.HopOf` | api/index.js:248-258 | A request that threw gives `Threw`, and only then. A reply whose `location` is missing or empty gives `NoLocation`, and only then. Otherwise the hop carries that `location`: `Marked` exactly when it contains "link=", `Next` otherwise. |
| `Redirects.Follow` | api/index.js:243-261 | The loop visits between 1 and the budget of URLs. Each visited URL is the unmarked `location` of the one before. The walk stops at the first hop that does not continue, or when the budget is spent. |
| `Redirects.TenGbpsResolve` | api/index.js:241-290 | At most three probes are sent. The first goes to the href, and each later one to the previous `location`. The loop stops early only at a hop it cannot continue from: when the last hop still has an unmarked `location`, exactly three probes were sent. If the last location holds "link=", the URL is the text between its first and second marker. Every other case gives the original href. |
| `Redirects.FollowAlongChain` | api/index.js:247-261 | A redirect chain that ends at a hop the loop cannot continue from is exactly what the loop visits. |
| `Redirects.TenGbpsFindsMarker` | api/index.js:247-271 | Completeness: if a chain of at most three redirects from the href reaches a location with "link=", the protocol resolves to the text after that marker. |
| `Redirects.TenGbpsMissingLocationFallsBack` | api/index.js:253-254 | A chain whose second hop has no `location` gives the original href after two probes. |
| `Redirects.TenGbpsBoundFallsBack` | api/index.js:247-279 | Three unmarked redirects give the original href, not the last location, after exactly three probes. |
| `Extractor.ResolveFor` | api/index.js:173-300 | BuzzServer buttons go through the BuzzServer protocol and 10Gbps buttons through the 10Gbps protocol. Every other provider keeps the href and sends no request. |
| `Extractor.CandidateName` | api/index.js:175-294 | Every name except Pixeldrain's begins with the referer. A 10Gbps name ends in "[Download]" exactly when the marker was found. An unknown provider's name is the referer and the bracketed text. |
| `Extractor.BuildCandidate` | api/index.js:171-300 | The type is the classification of the trimmed text, and the name follows the provider table. A 10Gbps name says "[Download]" exactly when the 10Gbps protocol found the marker. The label is trim(name + " " + labelString), and the quality is the page quality. BuzzServer and 10Gbps URLs are those their protocols resolve, with those protocols' probes; every other URL is the href, with no request. |
| `Extractor.CandidateLabelTrimmed` | api/index.js:178 | Every candidate label is already trimmed. |
| `Extractor.Kept` | api/index.js:167 | Every kept button has a non-empty href, and every button with one is kept. |
| `Extractor.KeptAppend` | api/index.js:160-167 | The kept buttons of two runs of buttons are those of the first run followed by those of the second: the filter keeps page order and multiplicity. |
| `Extractor.KeptOne` | api/index.js:167 | A single button is kept, once, exactly when its href is non-empty. |
| `Extractor.CollectWith` | api/index.js:160-305 | For any per-button step, the loop makes one candidate per kept button. The k-th candidate comes from the k-th kept button, so page order is kept. The requests are those of the kept buttons' steps, concatenated in the same order. |
| `Extractor.Collect` | api/index.js:160-305 | The button loop of `getUrl`: the candidates of the kept buttons in page order. The requests are each kept button's redirect probes, button after button, and nothing else. |
| `Extractor.StepRequestsAreProbes` | api/index.js:189-290 | The requests of the loop's per-button step, over a list of buttons, are those buttons' redirect probes in order. |
| `Extractor.ButtonProbesOnlyProbe` | api/index.js:189-290 | The buttons cost redirect probes only, never a page fetch. |
| `Extractor.InfoPageUrl` | api/index.js:109-128 | A URL containing "hubcloud.php" is used as is. Otherwise a failed landing fetch is "Failed to fetch download page", and a successful one gives the resolved `#download` href. |
| `Extractor.InfoPage` | api/index.js:136-160 | A failed fetch of the file-information page is "Failed to fetch download information". A fetched page gives the button loop run with the referer, the page quality and the label built from the cleaned header and the size. |
| `Extractor.StageTwo` | api/index.js:136-315 | A failed fetch of the file-information page is "Failed to fetch download information" after that one fetch. The result succeeds exactly when the fetch does, whatever the buttons. On success: the metadata comes from the header and size; the candidates are the button loop's, run with the referer, the page quality and the label from the cleaned header and the size; each has the page quality and its button's classification, and keeps its href unless a redirect protocol resolved it. The requests are the page fetch followed by the buttons' probes. |
| `Extractor.HubCloudGetUrl` | api/index.js:95-315 | An empty URL is refused with no request. A failed landing fetch is "Failed to fetch download page" after that one fetch. "No download link found" happens exactly when both the href and the base are empty, after stage one's requests only. A failed fetch of the address is "Failed to fetch download information". The extraction succeeds exactly when the file-information page is reached, and it then has stage two's result after stage one's requests. A hard stop sends at most two fetches and no probe. |
| `Extractor.HubdriveGetUrl` | api/index.js:329-364 | An empty URL is refused. A failed page fetch reports its reason. A missing or empty primary-button href is "No download button found on page". Otherwise the result is that of the HubCloud extractor on the href, whatever host it names, after one page fetch. A non-empty URL never yields "Invalid URL provided". |

## Left out

- The Express application, its middleware, logging and routes
  (api/index.js:1-17, 367-523): these are server plumbing. The routes check
  that `url` is non-empty and starts with "http" before calling the engine.
  For such URLs `Extractor.HubdriveGetUrl` never reports an invalid URL.
- The axios client (api/index.js:86-92), its timeout, its user agent and the
  asynchronous scheduling: requests are the oracle functions of `Web.Net`.
  The request log records their order.
- cheerio selection (api/index.js:114-115, 139, 145-146, 156, 163-165, 338-340):
  a fetched page is the `Web.Document` record of what the selectors return.
- `getBaseUrl` (api/index.js:20-28): WHATWG URL parsing is not modelled. The
  function is the oracle `Net.baseOf`.
- The catch blocks that cannot be reached once pages and responses are values:
  the `cleanTitle` fallback `title.substring(0, 50)` (api/index.js:80-82), the
  `getIndexQuality` catch (api/index.js:35-36), the per-button catch
  (api/index.js:301-304) and the outer catches (api/index.js:317-324, 357-363).
  The Hubdrive catch is modelled where it can fire: for the failed page fetch.
- The `typeof url !== 'string'` checks (api/index.js:102, 333): model inputs
  are strings, so only the empty-string case remains.
- The default `referer` values of the two `getUrl` methods: the model always
  takes the referer as an argument.
- A candidate's `label` field is called `labelText`, because `label` is a
  Dafny keyword.
- `Title.CleanTitle`: no lemma evaluates it on a concrete release name. Its
  contract states the range rules for every header.
- The `cleanTitle` catch is treated as unreachable on the assumption that the
  runtime provides `Array.prototype.findLastIndex` (api/index.js:67), which
  Node.js has from version 18. On an older runtime that call throws, and every
  non-empty header would take the `title.substring(0, 50)` fallback.
