/** Title heuristics applied to the header of the file-information page:
    the resolution tag (`getIndexQuality`), the cleaned release-title
    fragment (`cleanTitle`) and the bracketed label suffix built from the
    fragment and the file size. */
module Title {
  import opened Wrappers
  import opened Text

  /** The quality reported when the header carries no resolution tag. */
  const DefaultQuality := 1080

  // ---------------------------------------------------------------------
  // Quality: the leftmost match of /(\d{3,4})[pP]/
  // ---------------------------------------------------------------------

  predicate IsDigit(c: char) {
    '0' <= c <= '9'
  }

  predicate AllDigits(s: string) {
    forall k :: 0 <= k < |s| ==> IsDigit(s[k])
  }

  /** `w` digits start at `i` and are immediately followed by `p` or `P`. */
  predicate RunAt(s: string, i: nat, w: nat) {
    i + w < |s| && AllDigits(s[i..i + w]) && (s[i + w] == 'p' || s[i + w] == 'P')
  }

  /** The regular expression has a match starting at `i`. */
  predicate TagAt(s: string, i: nat) {
    RunAt(s, i, 4) || RunAt(s, i, 3)
  }

  /** The greedy `\d{3,4}` takes four digits when a match with four exists. */
  function TagWidth(s: string, i: nat): nat
    requires TagAt(s, i)
  {
    if RunAt(s, i, 4) then 4 else 3
  }

  /** `i` is where the regular expression engine reports its match: the
      leftmost start at which any match exists. */
  predicate IsFirstTag(s: string, i: nat) {
    TagAt(s, i) && forall j: nat :: j < i ==> !TagAt(s, j)
  }

  /** `parseInt` of a string of decimal digits. */
  function DigitsValue(s: string): nat
    requires AllDigits(s)
  {
    if s == [] then 0
    else DigitsValue(s[..|s| - 1]) * 10 + (s[|s| - 1] as int - '0' as int)
  }

  function Pow10(n: nat): nat {
    if n == 0 then 1 else 10 * Pow10(n - 1)
  }

  /** `n` decimal digits denote a number below 10^n. */
  lemma {:induction false} DigitsBound(s: string)
    requires AllDigits(s)
    ensures DigitsValue(s) < Pow10(|s|)
  {
    if s != [] {
      DigitsBound(s[..|s| - 1]);
    }
  }

  /** The leftmost match start at or after `i`. */
  function FirstTagFrom(s: string, i: nat): (r: Option<nat>)
    requires i <= |s|
    ensures r.Some? ==> i <= r.value < |s| && TagAt(s, r.value)
    ensures r.Some? ==> forall j: nat :: i <= j < r.value ==> !TagAt(s, j)
    ensures r.None? ==> forall j: nat :: i <= j ==> !TagAt(s, j)
    decreases |s| - i
  {
    if i == |s| then None
    else if TagAt(s, i) then Some(i)
    else FirstTagFrom(s, i + 1)
  }

  /** `getIndexQuality(header)`: the number in the leftmost `NNNp`/`NNNNp`
      tag, or 1080 for an empty header or one without such a tag. */
  function IndexQuality(s: string): (q: int)
    ensures (forall i: nat :: !TagAt(s, i)) ==> q == DefaultQuality
    ensures forall i: nat :: IsFirstTag(s, i) ==> q == DigitsValue(s[i..i + TagWidth(s, i)])
    ensures 0 <= q <= 9999
  {
    if s == "" then DefaultQuality
    else
      match FirstTagFrom(s, 0)
      case None => DefaultQuality
      case Some(i) =>
        var w := TagWidth(s, i);
        DigitsBound(s[i..i + w]);
        DigitsValue(s[i..i + w])
  }

  /** A three-digit tag with a capital P. */
  lemma IndexQualityExample()
    ensures IndexQuality("Show.720P") == 720
  {
    var s := "Show.720P";
    forall j: nat | j < 5
      ensures !TagAt(s, j)
    {
      assert !IsDigit(s[j]);
      assert s[j..j + 3][0] == s[j];
      if j + 4 <= |s| {
        assert s[j..j + 4][0] == s[j];
      }
    }
    assert s[5..8] == "720";
    assert IsFirstTag(s, 5);
    assert DigitsValue("720") == 720 by {
      assert "720"[..2] == "72";
      assert "72"[..1] == "7";
    }
  }

  // ---------------------------------------------------------------------
  // Splitting the header into parts
  // ---------------------------------------------------------------------

  /** The separators of `title.split(/[.\-_]/)`. */
  predicate IsSeparator(c: char) {
    c == '.' || c == '-' || c == '_'
  }

  predicate NoSeparator(s: string) {
    forall k :: 0 <= k < |s| ==> !IsSeparator(s[k])
  }

  /** `s.split(/[.\-_]/)`: the separator-free runs of `s`, empty ones included. */
  function Split(s: string): (parts: seq<string>)
    ensures |parts| >= 1
    ensures forall k :: 0 <= k < |parts| ==> NoSeparator(parts[k])
    decreases |s|
  {
    if s == [] then [""]
    else
      var rest := Split(s[1..]);
      if IsSeparator(s[0]) then [""] + rest
      else [[s[0]] + rest[0]] + rest[1..]
  }

  /** `s` with every separator written as a dot. */
  function Dotted(s: string): (r: string)
    ensures |r| == |s|
  {
    seq(|s|, i requires 0 <= i < |s| => if IsSeparator(s[i]) then '.' else s[i])
  }

  /** Splitting and joining with dots gives back the string with each
      separator replaced by a dot: the parts lose nothing but the separators. */
  lemma {:induction false} SplitJoin(s: string)
    ensures Join(".", Split(s)) == Dotted(s)
    decreases |s|
  {
    if s != [] {
      SplitJoin(s[1..]);
      assert s == [s[0]] + s[1..];
      SplitCons(s[0], s[1..]);
      assert Dotted(s) == Dotted(s[..1]) + Dotted(s[1..]);
      if IsSeparator(s[0]) {
        JoinOpenPart(Split(s[1..]));
      } else {
        var rest := Split(s[1..]);
        assert rest == [rest[0]] + rest[1..];
        JoinExtendPart(s[0], rest[0], rest[1..]);
      }
    }
  }

  /** A new empty first part puts a dot in front of the join. */
  lemma JoinOpenPart(rest: seq<string>)
    requires |rest| >= 1
    ensures Join(".", [""] + rest) == "." + Join(".", rest)
  {
    assert ([""] + rest)[1..] == rest;
  }

  /** A character added to the first part goes in front of the join. */
  lemma JoinExtendPart(x: char, p: string, ps: seq<string>)
    ensures Join(".", [[x] + p] + ps) == [x] + Join(".", [p] + ps)
  {
    if ps == [] {
      assert [[x] + p] + ps == [[x] + p];
      assert [p] + ps == [p];
    } else {
      JoinCons(".", [x] + p, ps);
      JoinCons(".", p, ps);
    }
  }

  /** A separator-free string is a single part. */
  lemma {:induction false} SplitWord(w: string)
    requires NoSeparator(w)
    ensures Split(w) == [w]
    decreases |w|
  {
    if w != [] {
      SplitWord(w[1..]);
      assert [w[0]] + w[1..] == w;
    }
  }

  /** One step of `Split`: a leading separator opens a new empty part; any
      other character joins the first part of the rest. */
  lemma SplitCons(x: char, t: string)
    ensures Split([x] + t) == if IsSeparator(x) then [""] + Split(t) else [[x] + Split(t)[0]] + Split(t)[1..]
  {
    assert ([x] + t)[0] == x;
    assert ([x] + t)[1..] == t;
  }

  /** Splitting distributes over a separator: the parts of the two sides,
      one after the other. */
  lemma {:induction false} SplitSeparated(a: string, c: char, b: string)
    requires IsSeparator(c)
    ensures Split(a + [c] + b) == Split(a) + Split(b)
    decreases |a|
  {
    if a == [] {
      SplitSeparatedBase(c, b);
      assert a + [c] + b == [c] + b;
    } else {
      var t := a[1..];
      assert a == [a[0]] + t;
      SplitSeparated(t, c, b);
      SplitSeparatedStep(a[0], t, c, b);
    }
  }

  /** The separator at the very start: an empty part, then the parts of the rest. */
  lemma SplitSeparatedBase(c: char, b: string)
    requires IsSeparator(c)
    ensures Split([c] + b) == Split([]) + Split(b)
  {
    SplitCons(c, b);
  }

  /** One character in front of both sides keeps the distribution. */
  lemma SplitSeparatedStep(x: char, t: string, c: char, b: string)
    requires Split(t + [c] + b) == Split(t) + Split(b)
    ensures Split([x] + t + [c] + b) == Split([x] + t) + Split(b)
  {
    assert [x] + t + [c] + b == [x] + (t + [c] + b);
    SplitCons(x, t + [c] + b);
    SplitCons(x, t);
    ConsPartAppend(x, IsSeparator(x), Split(t), Split(b));
  }

  /** The list algebra behind `SplitSeparatedStep`: the step of `SplitCons`
      commutes with appending further parts. */
  lemma ConsPartAppend(x: char, sep: bool, L: seq<string>, B: seq<string>)
    requires |L| >= 1
    ensures (if sep then [""] + (L + B) else [[x] + (L + B)[0]] + (L + B)[1..])
            == (if sep then [""] + L else [[x] + L[0]] + L[1..]) + B
  {
    if !sep {
      assert (L + B)[0] == L[0];
      assert (L + B)[1..] == L[1..] + B;
    }
  }

  // ---------------------------------------------------------------------
  // Tag vocabularies
  // ---------------------------------------------------------------------

  const QualityTags: seq<string> := [
    "WEBRip", "WEB-DL", "WEB", "BluRay", "HDRip", "DVDRip", "HDTV",
    "CAM", "TS", "R5", "DVDScr", "BRRip", "BDRip", "DVD", "PDTV", "HD"
  ]

  const AudioTags: seq<string> := [
    "AAC", "AC3", "DTS", "MP3", "FLAC", "DD5", "EAC3", "Atmos"
  ]

  const SubTags: seq<string> := [
    "ESub", "ESubs", "Subs", "MultiSub", "NoSub", "EnglishSub", "HindiSub"
  ]

  const CodecTags: seq<string> := [
    "x264", "x265", "H264", "HEVC", "AVC"
  ]

  /** The tags that can end the kept range, searched as one vocabulary. */
  const EndTags: seq<string> := SubTags + AudioTags + CodecTags

  /** `tags.some(tag => part.toLowerCase().includes(tag.toLowerCase()))`. */
  predicate HasTag(part: string, tags: seq<string>) {
    exists k :: 0 <= k < |tags| && ContainsIgnoreCase(part, tags[k])
  }

  /** The end-of-range test as `cleanTitle` writes it, three vocabularies in a row. */
  predicate IsEndPart(part: string) {
    HasTag(part, SubTags) || HasTag(part, AudioTags) || HasTag(part, CodecTags)
  }

  /** A part has a tag of a concatenated vocabulary exactly when it has one of either half. */
  lemma HasTagConcat(part: string, a: seq<string>, b: seq<string>)
    ensures HasTag(part, a + b) <==> HasTag(part, a) || HasTag(part, b)
  {
    if HasTag(part, a + b) {
      var k :| 0 <= k < |a + b| && ContainsIgnoreCase(part, (a + b)[k]);
      if k >= |a| {
        assert (a + b)[k] == b[k - |a|];
      }
    }
    if HasTag(part, a) {
      var k :| 0 <= k < |a| && ContainsIgnoreCase(part, a[k]);
      assert (a + b)[k] == a[k];
    }
    if HasTag(part, b) {
      var k :| 0 <= k < |b| && ContainsIgnoreCase(part, b[k]);
      assert (a + b)[|a| + k] == b[k];
    }
  }

  /** Searching the combined vocabulary is `IsEndPart`'s three searches. */
  lemma EndTagsCombined(part: string)
    ensures HasTag(part, EndTags) <==> IsEndPart(part)
  {
    HasTagConcat(part, SubTags + AudioTags, CodecTags);
    HasTagConcat(part, SubTags, AudioTags);
  }

  /** The vocabulary entry "WEB-DL" can never match: the parts it is
      matched against contain no '-', and lower-casing keeps it that way. */
  lemma WebDlNeverMatches(title: string, k: nat)
    requires k < |Split(title)|
    ensures !ContainsIgnoreCase(Split(title)[k], "WEB-DL")
  {
    var low := Lower(Split(title)[k]);
    assert Lower("WEB-DL")[3] == '-';
    assert forall i :: 0 <= i < |low| ==> low[i] != '-';
    AbsentCharBlocks(low, Lower("WEB-DL"), 3);
  }

  // ---------------------------------------------------------------------
  // cleanTitle
  // ---------------------------------------------------------------------

  /** `i` is the first part carrying a tag from `tags` (`findIndex`). */
  predicate IsFirstTagged(parts: seq<string>, tags: seq<string>, i: int) {
    0 <= i < |parts| && HasTag(parts[i], tags) && forall j :: 0 <= j < i ==> !HasTag(parts[j], tags)
  }

  /** `i` is the last part carrying a tag from `tags` (`findLastIndex`). */
  predicate IsLastTagged(parts: seq<string>, tags: seq<string>, i: int) {
    0 <= i < |parts| && HasTag(parts[i], tags) && forall j :: i < j < |parts| ==> !HasTag(parts[j], tags)
  }

  predicate NoneTagged(parts: seq<string>, tags: seq<string>) {
    forall j :: 0 <= j < |parts| ==> !HasTag(parts[j], tags)
  }

  /** The first tagged part at or after `i`. */
  function FirstTagged(parts: seq<string>, tags: seq<string>, i: nat): (r: Option<nat>)
    requires i <= |parts|
    ensures r.Some? ==> i <= r.value < |parts| && HasTag(parts[r.value], tags)
    ensures r.Some? ==> forall j :: i <= j < r.value ==> !HasTag(parts[j], tags)
    ensures r.None? ==> forall j :: i <= j < |parts| ==> !HasTag(parts[j], tags)
    decreases |parts| - i
  {
    if i == |parts| then None
    else if HasTag(parts[i], tags) then Some(i)
    else FirstTagged(parts, tags, i + 1)
  }

  /** The last tagged part before index `n`. */
  function LastTagged(parts: seq<string>, tags: seq<string>, n: nat): (r: Option<nat>)
    requires n <= |parts|
    ensures r.Some? ==> r.value < n && HasTag(parts[r.value], tags)
    ensures r.Some? ==> forall j :: r.value < j < n ==> !HasTag(parts[j], tags)
    ensures r.None? ==> forall j :: 0 <= j < n ==> !HasTag(parts[j], tags)
    decreases n
  {
    if n == 0 then None
    else if HasTag(parts[n - 1], tags) then Some(n - 1)
    else LastTagged(parts, tags, n - 1)
  }

  /** The search from the front finds exactly the first tagged part. */
  lemma FirstTaggedUnique(parts: seq<string>, tags: seq<string>)
    ensures forall s :: IsFirstTagged(parts, tags, s) ==> FirstTagged(parts, tags, 0) == Some(s)
    ensures FirstTagged(parts, tags, 0).Some? ==> IsFirstTagged(parts, tags, FirstTagged(parts, tags, 0).value)
    ensures FirstTagged(parts, tags, 0).None? <==> NoneTagged(parts, tags)
  {
    var r := FirstTagged(parts, tags, 0);
    forall s | IsFirstTagged(parts, tags, s)
      ensures r == Some(s)
    {
    }
  }

  /** The search from the back finds exactly the last tagged part. */
  lemma LastTaggedUnique(parts: seq<string>, tags: seq<string>)
    ensures forall e :: IsLastTagged(parts, tags, e) ==> LastTagged(parts, tags, |parts|) == Some(e)
    ensures LastTagged(parts, tags, |parts|).Some? ==> IsLastTagged(parts, tags, LastTagged(parts, tags, |parts|).value)
  {
    var r := LastTagged(parts, tags, |parts|);
    forall e | IsLastTagged(parts, tags, e)
      ensures r == Some(e)
    {
    }
  }

  /** `parts.slice(-3)`: the last three parts, or all of them when fewer. */
  function LastThree(parts: seq<string>): (r: seq<string>)
    ensures |r| == if |parts| < 3 then |parts| else 3
    ensures r == parts[|parts| - |r|..]
  {
    if |parts| <= 3 then parts else parts[|parts| - 3..]
  }

  /** The choice `cleanTitle` makes among the parts, for any two vocabularies:
      from the first part tagged by `qtags` to the last tagged by `etags`
      when that one does not come earlier; from the first to the end when
      it does or there is none; the last three parts without a first.
      `CleanPartsSpec` states the three rules. */
  function CleanParts(parts: seq<string>, qtags: seq<string>, etags: seq<string>): string {
    match FirstTagged(parts, qtags, 0)
    case None => Join(".", LastThree(parts))
    case Some(s) =>
      var end := LastTagged(parts, etags, |parts|);
      if end.Some? && end.value >= s then Join(".", parts[s..end.value + 1])
      else Join(".", parts[s..])
  }

  /** A first part with a quality tag and a last with an end tag, in that
      order: the parts from the one to the other. */
  lemma CleanPartsRange(parts: seq<string>, qtags: seq<string>, etags: seq<string>, s: int, e: int)
    requires IsFirstTagged(parts, qtags, s) && IsLastTagged(parts, etags, e) && s <= e
    ensures CleanParts(parts, qtags, etags) == Join(".", parts[s..e + 1])
  {
    FirstTaggedUnique(parts, qtags);
    LastTaggedUnique(parts, etags);
  }

  /** A first part with a quality tag and no end tag at or after it: the
      parts from that one to the end. */
  lemma CleanPartsToEnd(parts: seq<string>, qtags: seq<string>, etags: seq<string>, s: int)
    requires IsFirstTagged(parts, qtags, s)
    requires forall e :: IsLastTagged(parts, etags, e) ==> e < s
    ensures CleanParts(parts, qtags, etags) == Join(".", parts[s..])
  {
    FirstTaggedUnique(parts, qtags);
    LastTaggedUnique(parts, etags);
  }

  /** No part with a quality tag: the last three parts. */
  lemma CleanPartsNoStart(parts: seq<string>, qtags: seq<string>, etags: seq<string>)
    requires NoneTagged(parts, qtags)
    ensures CleanParts(parts, qtags, etags) == Join(".", LastThree(parts))
  {
    FirstTaggedUnique(parts, qtags);
  }

  /** The three rules of `CleanParts` for every choice of first and last part. */
  lemma CleanPartsSpec(parts: seq<string>, qtags: seq<string>, etags: seq<string>)
    ensures forall s, e ::
              IsFirstTagged(parts, qtags, s) && IsLastTagged(parts, etags, e) && s <= e ==>
                CleanParts(parts, qtags, etags) == Join(".", parts[s..e + 1])
    ensures forall s ::
              IsFirstTagged(parts, qtags, s) && (forall e :: IsLastTagged(parts, etags, e) ==> e < s) ==>
                CleanParts(parts, qtags, etags) == Join(".", parts[s..])
    ensures NoneTagged(parts, qtags) ==> CleanParts(parts, qtags, etags) == Join(".", LastThree(parts))
  {
    forall s, e | IsFirstTagged(parts, qtags, s) && IsLastTagged(parts, etags, e) && s <= e {
      CleanPartsRange(parts, qtags, etags, s, e);
    }
    forall s | IsFirstTagged(parts, qtags, s) && (forall e :: IsLastTagged(parts, etags, e) ==> e < s) {
      CleanPartsToEnd(parts, qtags, etags, s);
    }
    if NoneTagged(parts, qtags) {
      CleanPartsNoStart(parts, qtags, etags);
    }
  }

  /** `cleanTitle(header)`: `CleanParts` over the header's parts with the
      quality vocabulary opening the range and the audio, subtitle and codec
      vocabularies closing it; "" for an empty header. */
  function CleanTitle(title: string): (r: string)
    ensures title == "" ==> r == ""
    ensures title != "" ==>
              forall s, e ::
                IsFirstTagged(Split(title), QualityTags, s) && IsLastTagged(Split(title), EndTags, e) && s <= e ==>
                  r == Join(".", Split(title)[s..e + 1])
    ensures title != "" ==>
              forall s ::
                IsFirstTagged(Split(title), QualityTags, s) && (forall e :: IsLastTagged(Split(title), EndTags, e) ==> e < s) ==>
                  r == Join(".", Split(title)[s..])
    ensures title != "" && NoneTagged(Split(title), QualityTags) ==> r == Join(".", LastThree(Split(title)))
  {
    if title == "" then ""
    else
      CleanPartsSpec(Split(title), QualityTags, EndTags);
      CleanParts(Split(title), QualityTags, EndTags)
  }

  // ---------------------------------------------------------------------
  // The label suffix
  // ---------------------------------------------------------------------

  /** The non-empty strings of `xs`, in order. */
  function NonEmpty(xs: seq<string>): (r: seq<string>)
    ensures forall k :: 0 <= k < |r| ==> r[k] != ""
  {
    if xs == [] then []
    else if xs[0] == "" then NonEmpty(xs[1..])
    else [xs[0]] + NonEmpty(xs[1..])
  }

  /** Each string of `xs` in its own pair of brackets, concatenated. */
  function Bracketed(xs: seq<string>): string {
    if xs == [] then "" else "[" + xs[0] + "]" + Bracketed(xs[1..])
  }

  /** Wrapping the `"]["`-join of a non-empty list in brackets brackets each item. */
  lemma {:induction false} BracketJoin(xs: seq<string>)
    requires |xs| > 0
    ensures "[" + Join("][", xs) + "]" == Bracketed(xs)
    decreases |xs|
  {
    if |xs| > 1 {
      BracketJoin(xs[1..]);
      assert "[" + Join("][", xs) + "]" == "[" + xs[0] + "]" + ("[" + Join("][", xs[1..]) + "]");
    } else {
      assert Bracketed(xs[1..]) == "";
    }
  }

  /** `labelString`: the non-empty ones of the title fragment and the size,
      each in brackets, title first; "" exactly when both are empty. */
  function LabelString(title: string, size: string): (r: string)
    ensures r == "" <==> title == "" && size == ""
    ensures r == Bracketed(NonEmpty([title, size]))
  {
    var extras := (if title != "" then [title] else []) + (if size != "" then [size] else []);
    assert extras == NonEmpty([title, size]) by {
      assert [title, size][1..] == [size];
      assert NonEmpty([size][1..]) == [];
    }
    if |extras| > 0 then
      BracketJoin(extras);
      "[" + Join("][", extras) + "]"
    else ""
  }
}
