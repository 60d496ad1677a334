/** The handful of JavaScript string primitives the extraction engine relies on:
    `startsWith`, `includes`, `indexOf`, ASCII case folding, `trim`, `join`, and
    `split` with a string separator. Strings are sequences of characters. */
module Text {
  import opened Wrappers

  /** `p` occurs in `s` starting at index `i`. */
  predicate OccursAt(s: string, p: string, i: nat) {
    i + |p| <= |s| && s[i..i + |p|] == p
  }

  /** The first index at or after `from` where `p` occurs in `s`
      (`s.indexOf(p, from)`, with `None` for -1). */
  function IndexOfFrom(s: string, p: string, from: nat): (r: Option<nat>)
    requires from <= |s|
    ensures r.Some? ==> from <= r.value && OccursAt(s, p, r.value)
    ensures r.Some? ==> forall j: nat :: from <= j < r.value ==> !OccursAt(s, p, j)
    ensures r.None? ==> forall j: nat :: from <= j ==> !OccursAt(s, p, j)
    decreases |s| - from
  {
    if OccursAt(s, p, from) then Some(from)
    else if from == |s| then None
    else IndexOfFrom(s, p, from + 1)
  }

  /** `s.includes(p)`. */
  function Contains(s: string, p: string): (b: bool)
    ensures b <==> exists i: nat :: OccursAt(s, p, i)
  {
    IndexOfFrom(s, p, 0).Some?
  }

  /** An occurrence inside a slice is an occurrence in the whole string. */
  lemma OccursInSlice(s: string, a: nat, b: nat, p: string, q: nat)
    requires a <= b <= |s| && OccursAt(s[a..b], p, q)
    ensures OccursAt(s, p, a + q)
  {
    assert q + |p| <= b - a;
    forall k | 0 <= k < |p|
      ensures s[a + q..a + q + |p|][k] == p[k]
    {
      assert s[a..b][q..q + |p|][k] == p[k];
    }
  }

  /** An occurrence of `p` is an occurrence of each prefix of `p`. */
  lemma PrefixOccurs(s: string, p: string, p': string, i: nat)
    requires OccursAt(s, p, i) && p' <= p
    ensures OccursAt(s, p', i)
  {
    assert s[i..i + |p'|] == s[i..i + |p|][..|p'|];
  }

  /** A string cannot occur where one of its characters never appears. */
  lemma AbsentCharBlocks(s: string, p: string, k: nat)
    requires k < |p| && forall i :: 0 <= i < |s| ==> s[i] != p[k]
    ensures !Contains(s, p)
  {
    forall i: nat
      ensures !OccursAt(s, p, i)
    {
      if i + |p| <= |s| {
        assert s[i..i + |p|][k] == s[i + k];
      }
    }
  }

  /** ASCII lower-casing of one character; every other character is kept. */
  function LowerChar(c: char): char {
    if 'A' <= c <= 'Z' then (c as int + 32) as char else c
  }

  /** ASCII lower-casing of a string. */
  function Lower(s: string): (r: string)
    ensures |r| == |s|
  {
    seq(|s|, i requires 0 <= i < |s| => LowerChar(s[i]))
  }

  /** Case-insensitive `includes`: `s.toLowerCase().includes(p.toLowerCase())`,
      and equally `s.match(/p/i)` for a literal ASCII pattern `p`. */
  function ContainsIgnoreCase(s: string, p: string): bool {
    Contains(Lower(s), Lower(p))
  }

  /** The case-blind test holds exactly when `p` matches somewhere in `s`
      with each character compared letter case aside. */
  lemma ContainsIgnoreCaseSpec(s: string, p: string)
    ensures ContainsIgnoreCase(s, p) <==> exists i: nat :: MatchesAtIgnoreCase(s, p, i)
  {
    LowerOccurs(s, p);
  }

  /** `p` matches `s` at `i` character by character, letter case aside. */
  predicate MatchesAtIgnoreCase(s: string, p: string, i: nat) {
    i + |p| <= |s| && forall k :: 0 <= k < |p| ==> LowerChar(s[i + k]) == LowerChar(p[k])
  }

  /** An occurrence in the lower-cased strings is a case-blind match. */
  lemma LowerOccurs(s: string, p: string)
    ensures forall i: nat :: OccursAt(Lower(s), Lower(p), i) <==> MatchesAtIgnoreCase(s, p, i)
  {
    forall i: nat
      ensures OccursAt(Lower(s), Lower(p), i) <==> MatchesAtIgnoreCase(s, p, i)
    {
      if i + |p| <= |s| {
        if OccursAt(Lower(s), Lower(p), i) {
          forall k | 0 <= k < |p|
            ensures LowerChar(s[i + k]) == LowerChar(p[k])
          {
            assert Lower(s)[i..i + |p|][k] == Lower(p)[k];
          }
        }
        if MatchesAtIgnoreCase(s, p, i) {
          assert Lower(s)[i..i + |p|] == Lower(p);
        }
      }
    }
  }

  /** Lower-casing twice is lower-casing once. */
  lemma LowerIdempotent(s: string)
    ensures Lower(Lower(s)) == Lower(s)
  {
  }

  /** The characters `String.prototype.trim` removes: the ECMAScript
      WhiteSpace and LineTerminator code points. */
  predicate IsSpace(c: char) {
    var n := c as int;
    n == 0x09 || n == 0x0A || n == 0x0B || n == 0x0C || n == 0x0D || n == 0x20
    || n == 0xA0 || n == 0x1680 || (0x2000 <= n <= 0x200A) || n == 0x2028
    || n == 0x2029 || n == 0x202F || n == 0x205F || n == 0x3000 || n == 0xFEFF
  }

  predicate AllSpace(s: string) {
    forall k :: 0 <= k < |s| ==> IsSpace(s[k])
  }

  /** The first index at or after `i` that does not hold whitespace. */
  function SkipSpaces(s: string, i: nat): (j: nat)
    requires i <= |s|
    ensures i <= j <= |s|
    ensures forall k :: i <= k < j ==> IsSpace(s[k])
    ensures j < |s| ==> !IsSpace(s[j])
    decreases |s| - i
  {
    if i == |s| || !IsSpace(s[i]) then i else SkipSpaces(s, i + 1)
  }

  /** Walking back from `j`, but not below `lo`, past whitespace. */
  function BackSpaces(s: string, lo: nat, j: nat): (k: nat)
    requires lo <= j <= |s|
    ensures lo <= k <= j
    ensures forall m :: k <= m < j ==> IsSpace(s[m])
    ensures lo < k ==> !IsSpace(s[k - 1])
    decreases j
  {
    if j == lo || !IsSpace(s[j - 1]) then j else BackSpaces(s, lo, j - 1)
  }

  /** `s.trim()`: the middle of `s` left after removing whitespace at both ends. */
  function Trim(s: string): (r: string)
    ensures exists a: nat, b: nat :: a <= b <= |s| && r == s[a..b] && AllSpace(s[..a]) && AllSpace(s[b..])
    ensures r != [] ==> !IsSpace(r[0]) && !IsSpace(r[|r| - 1])
  {
    var a := SkipSpaces(s, 0);
    var b := BackSpaces(s, a, |s|);
    assert AllSpace(s[..a]) && AllSpace(s[b..]);
    s[a..b]
  }

  /** Trimming is idempotent: a trimmed string has nothing left to trim. */
  lemma TrimIdempotent(s: string)
    ensures Trim(Trim(s)) == Trim(s)
  {
    var r := Trim(s);
    var a := SkipSpaces(r, 0);
    if r != [] {
      assert a == 0;
      assert BackSpaces(r, a, |r|) == |r|;
    }
  }

  /** The total length of a list of strings. */
  function TotalLength(parts: seq<string>): nat {
    if parts == [] then 0 else |parts[0]| + TotalLength(parts[1..])
  }

  /** `parts.join(sep)`: every part in order, one `sep` between neighbours. */
  function Join(sep: string, parts: seq<string>): string
    decreases |parts|
  {
    if |parts| == 0 then ""
    else if |parts| == 1 then parts[0]
    else parts[0] + sep + Join(sep, parts[1..])
  }

  /** The join holds every character of the parts and one separator per
      neighbouring pair. */
  lemma {:induction false} JoinLength(sep: string, parts: seq<string>)
    requires |parts| > 0
    ensures |Join(sep, parts)| == TotalLength(parts) + (|parts| - 1) * |sep|
    decreases |parts|
  {
    if |parts| > 1 {
      JoinLength(sep, parts[1..]);
      assert (|parts| - 1) * |sep| == (|parts| - 2) * |sep| + |sep|;
    }
  }

  /** A join of two or more parts is the first part, a separator, and the
      join of the rest. */
  lemma JoinCons(sep: string, p: string, ps: seq<string>)
    requires |ps| >= 1
    ensures Join(sep, [p] + ps) == p + sep + Join(sep, ps)
  {
    assert ([p] + ps)[1..] == ps;
  }

  /** Appending a part appends the separator and the part. */
  lemma {:induction false} JoinSnoc(sep: string, parts: seq<string>, x: string)
    requires |parts| > 0
    ensures Join(sep, parts + [x]) == Join(sep, parts) + sep + x
    decreases |parts|
  {
    if |parts| > 1 {
      assert (parts + [x])[1..] == parts[1..] + [x];
      JoinSnoc(sep, parts[1..], x);
    } else {
      assert parts + [x] == [parts[0], x];
    }
  }

  /** `s.split(m)[1]` for a separator `m` that occurs in `s`: the text after
      the first occurrence of `m`, up to the next occurrence or the end. */
  function SecondField(s: string, m: string): (r: string)
    requires m != [] && Contains(s, m)
    ensures !Contains(r, m)
    ensures exists pre: string, post: string ::
      s == pre + m + r + post && !Contains(pre, m) && (post == [] || m <= post)
  {
    var i := IndexOfFrom(s, m, 0).value;
    var next := IndexOfFrom(s, m, i + |m|);
    var j := if next.Some? then next.value else |s|;
    NoMarkerBetween(s, m, i + |m|, j);
    NoMarkerBefore(s, m, i);
    MarkerAt(s, m, i, j);
    var pre, r, post := s[..i], s[i + |m|..j], s[j..];
    assert s == pre + m + r + post && !Contains(pre, m) && (post == [] || m <= post);
    r
  }

  /** Cutting a string at three points and gluing the pieces back. */
  lemma Decompose(s: string, i: nat, k: nat, j: nat)
    requires i <= k <= j <= |s|
    ensures s == s[..i] + s[i..k] + s[k..j] + s[j..]
  {
  }

  /** No occurrence starts in `s[from..j]` when `j` is the next one at or after `from`. */
  lemma NoMarkerBetween(s: string, m: string, from: nat, j: nat)
    requires from <= |s| && m != []
    requires j == (if IndexOfFrom(s, m, from).Some? then IndexOfFrom(s, m, from).value else |s|)
    ensures from <= j <= |s|
    ensures !Contains(s[from..j], m)
  {
    if Contains(s[from..j], m) {
      var q: nat :| OccursAt(s[from..j], m, q);
      OccursInSlice(s, from, j, m, q);
    }
  }

  /** The pieces around an occurrence at `i` and a later one at `j` (or the end). */
  lemma MarkerAt(s: string, m: string, i: nat, j: nat)
    requires OccursAt(s, m, i) && i + |m| <= j <= |s|
    requires j < |s| ==> OccursAt(s, m, j)
    ensures s == s[..i] + m + s[i + |m|..j] + s[j..]
    ensures s[j..] == [] || m <= s[j..]
  {
    Glue(s, m, i, i + |m|, j);
    if j < |s| {
      PrefixAt(s, m, j);
    }
  }

  /** Replacing the middle piece of a cut by an equal string. */
  lemma Glue(s: string, m: string, i: nat, k: nat, j: nat)
    requires i <= k <= j <= |s| && s[i..k] == m
    ensures s == s[..i] + m + s[k..j] + s[j..]
  {
    Decompose(s, i, k, j);
  }

  /** An occurrence at `j` is a prefix of the suffix from `j`. */
  lemma PrefixAt(s: string, m: string, j: nat)
    requires OccursAt(s, m, j)
    ensures m <= s[j..]
  {
    assert s[j..][..|m|] == s[j..j + |m|];
  }

  /** No occurrence lies inside the text before the first one. */
  lemma NoMarkerBefore(s: string, m: string, i: nat)
    requires m != [] && IndexOfFrom(s, m, 0) == Some(i)
    ensures !Contains(s[..i], m)
  {
    if Contains(s[..i], m) {
      var q: nat :| OccursAt(s[..i], m, q);
      OccursInSlice(s, 0, i, m, q);
    }
  }
}
