/** Classification of a download button by its visible text: the
    first-match-wins chain of case-insensitive tests in the button loop. */
module Providers {
  import opened Text

  /** The provider a button leads to; `Tag` is the `type` string of a candidate. */
  datatype ProviderType = Fsl | Direct | Buzz | Pixeldrain | S3 | TenGbps | Other {

    function Tag(): string {
      match this
      case Fsl => "fsl"
      case Direct => "direct"
      case Buzz => "buzz"
      case Pixeldrain => "pixeldrain"
      case S3 => "s3"
      case TenGbps => "10gbps"
      case Other => "other"
    }

    /** The alternatives of the pattern matched for this provider; `Other`
        is what is left when no pattern matches. */
    function Patterns(): seq<string> {
      match this
      case Fsl => ["FSL Server"]
      case Direct => ["Download File"]
      case Buzz => ["BuzzServer"]
      case Pixeldrain => ["pixeldra", "pixel"]
      case S3 => ["S3 Server"]
      case TenGbps => ["10Gbps"]
      case Other => []
    }

    /** Position of this provider's test in the chain. */
    function Rank(): nat {
      match this
      case Fsl => 0
      case Direct => 1
      case Buzz => 2
      case Pixeldrain => 3
      case S3 => 4
      case TenGbps => 5
      case Other => 6
    }
  }

  /** `text.match(/alt1|alt2|.../i)` for this provider's pattern. */
  predicate Matches(text: string, k: ProviderType) {
    exists i :: 0 <= i < |k.Patterns()| && ContainsIgnoreCase(text, k.Patterns()[i])
  }

  /** Each provider's test spelled out. */
  lemma MatchesUnfolded(text: string)
    ensures Matches(text, Fsl) == ContainsIgnoreCase(text, "FSL Server")
    ensures Matches(text, Direct) == ContainsIgnoreCase(text, "Download File")
    ensures Matches(text, Buzz) == ContainsIgnoreCase(text, "BuzzServer")
    ensures Matches(text, Pixeldrain) == (ContainsIgnoreCase(text, "pixeldra") || ContainsIgnoreCase(text, "pixel"))
    ensures Matches(text, S3) == ContainsIgnoreCase(text, "S3 Server")
    ensures Matches(text, TenGbps) == ContainsIgnoreCase(text, "10Gbps")
    ensures !Matches(text, Other)
  {
    assert Fsl.Patterns()[0] == "FSL Server";
    assert Direct.Patterns()[0] == "Download File";
    assert Buzz.Patterns()[0] == "BuzzServer";
    assert Pixeldrain.Patterns()[0] == "pixeldra" && Pixeldrain.Patterns()[1] == "pixel";
    assert S3.Patterns()[0] == "S3 Server";
    assert TenGbps.Patterns()[0] == "10Gbps";
  }

  /** The provider of a button with (trimmed) text `text`: the provider of
      the first pattern in the chain that matches, `Other` when none does. */
  function Classify(text: string): (k: ProviderType)
    ensures k != Other ==> Matches(text, k)
    ensures forall j: ProviderType :: j.Rank() < k.Rank() ==> !Matches(text, j)
  {
    MatchesUnfolded(text);
    if ContainsIgnoreCase(text, "FSL Server") then Fsl
    else if ContainsIgnoreCase(text, "Download File") then Direct
    else if ContainsIgnoreCase(text, "BuzzServer") then Buzz
    else if ContainsIgnoreCase(text, "pixeldra") || ContainsIgnoreCase(text, "pixel") then Pixeldrain
    else if ContainsIgnoreCase(text, "S3 Server") then S3
    else if ContainsIgnoreCase(text, "10Gbps") then TenGbps
    else Other
  }

  /** The provider is determined by the first matching rule: any provider
      whose pattern matches and that no earlier matching rule precedes is the
      classification. */
  lemma ClassifyIsFirstMatch(text: string, k: ProviderType)
    requires k != Other && Matches(text, k)
    requires forall j: ProviderType :: j.Rank() < k.Rank() ==> !Matches(text, j)
    ensures Classify(text) == k
  {
    var c := Classify(text);
    assert c != Other ==> Matches(text, c);
  }

  /** The "pixeldra" alternative is subsumed by "pixel": the Pixeldrain test
      holds exactly when the text contains "pixel" in any case. */
  lemma PixelSubsumes(text: string)
    ensures Matches(text, Pixeldrain) <==> ContainsIgnoreCase(text, "pixel")
  {
    assert Pixeldrain.Patterns()[1] == "pixel";
    if ContainsIgnoreCase(text, "pixeldra") {
      var i: nat :| OccursAt(Lower(text), Lower("pixeldra"), i);
      assert Lower("pixel") <= Lower("pixeldra");
      PrefixOccurs(Lower(text), Lower("pixeldra"), Lower("pixel"), i);
    }
  }

  /** Classification ignores letter case. */
  lemma ClassifyIgnoresCase(text: string)
    ensures Classify(Lower(text)) == Classify(text)
  {
    LowerIdempotent(text);
  }
}
