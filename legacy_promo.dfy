/**
 * The older promo-code service of the models package: a once-only initialisation that
 * downloads the three coupon files, reads each one whole, and stores the codes found in at
 * least two of them; lookups check the length and then the set.
 */
module LegacyPromo {
  import opened Wrappers
  import opened GoStrings
  import Consensus
  import opened Validation
  import opened Promo
  import PromoProperties

  /** The legacy `isAlphanumeric`: every character is an ASCII capital or digit (true on ""). */
  method IsAlphanumeric(s: string) returns (ok: bool)
    ensures ok <==> forall i :: 0 <= i < |s| ==> IsUpper(s[i]) || IsDigit(s[i])
  {
    for i := 0 to |s|
      invariant forall k :: 0 <= k < i ==> IsUpper(s[k]) || IsDigit(s[k])
    {
      if !(IsUpper(s[i]) || IsDigit(s[i])) {
        return false;
      }
    }
    return true;
  }

  /**
   * The extraction loop of `downloadAndProcessCouponFile`, given the whole decompressed text:
   * split it into fields, clean every field, keep it when it has 8 to 10 characters and is
   * alphanumeric.
   */
  method DownloadAndProcessCouponFile(text: string) returns (codes: set<string>)
    ensures codes == ExtractChunk(text)
  {
    var words := Fields(text);
    codes := {};
    var j := 0;
    while j < |words|
      invariant 0 <= j <= |words|
      invariant codes == ExtractWords(words[..j])
    {
      var cleaned := SanitizeString(words[j]);
      var keep := IsCandidate(cleaned);
      if keep {
        codes := codes + {cleaned};
      }
      ExtractWordsSnoc(words, j);
      j := j + 1;
    }
    assert words[..|words|] == words;
  }

  /** The test the extraction loop applies to a cleaned token: 8 to 10 characters, all capitals or digits. */
  method IsCandidate(cleaned: string) returns (keep: bool)
    ensures keep == ValidFormat(cleaned)
  {
    var alnum := IsAlphanumeric(cleaned);
    keep := |cleaned| >= 8 && |cleaned| <= 10 && alnum;
  }

  /** Reading a file whole is reading it as a single block. */
  lemma WholeTextIsOneBlock(text: string)
    ensures Candidates([text]) == ExtractChunk(text)
  {
    assert [text][..0] == [];
    assert Candidates([text]) == Candidates([]) + ExtractChunk(text);
  }

  /**
   * The per-file code sets of `Init`: a file whose download or read failed keeps the empty
   * map it was given up front.
   */
  function FileCodes(outcomes: seq<Option<string>>): (files: seq<set<string>>)
    ensures |files| == |outcomes|
    ensures forall i :: 0 <= i < |outcomes| ==>
              files[i] == (if outcomes[i].Some? then ExtractChunk(outcomes[i].value) else {})
    decreases |outcomes|
  {
    if outcomes == [] then []
    else
      var last := outcomes[|outcomes| - 1];
      FileCodes(outcomes[..|outcomes| - 1]) + [if last.Some? then ExtractChunk(last.value) else {}]
  }

  /** The codes `Init` adds: those found in at least two files. */
  function InitConsensus(outcomes: seq<Option<string>>): set<string>
  {
    Consensus.Quorum(FileCodes(outcomes), 2)
  }

  /** The same download outcomes, seen as the newer service sees them: a whole text is one read block. */
  function AsBlocks(outcomes: seq<Option<string>>): (r: seq<Option<seq<string>>>)
    ensures |r| == |outcomes|
    ensures forall i :: 0 <= i < |outcomes| ==>
              r[i] == (if outcomes[i].Some? then Some([outcomes[i].value]) else None)
    decreases |outcomes|
  {
    if outcomes == [] then []
    else
      var last := outcomes[|outcomes| - 1];
      AsBlocks(outcomes[..|outcomes| - 1]) + [if last.Some? then Some([last.value]) else None]
  }

  /** Both services derive the same per-source sets from files that were each read whole. */
  lemma SameSourceSets(outcomes: seq<Option<string>>)
    ensures SourceCodes(AsBlocks(outcomes)) == FileCodes(outcomes)
  {
    var a := SourceCodes(AsBlocks(outcomes));
    var b := FileCodes(outcomes);
    forall i | 0 <= i < |outcomes| ensures a[i] == b[i] {
      if outcomes[i].Some? {
        WholeTextIsOneBlock(outcomes[i].value);
      }
    }
  }

  /**
   * Unless exactly one file was read, the legacy consensus is the one the newer service
   * computes from the same files, each read in one block.
   */
  lemma LegacyMatchesRefresh(outcomes: seq<Option<string>>)
    requires Successes(AsBlocks(outcomes)) != 1
    ensures InitConsensus(outcomes) == RefreshConsensus(AsBlocks(outcomes))
  {
    SameSourceSets(outcomes);
  }

  /**
   * With exactly one file read, the legacy service keeps nothing (it always asks for two
   * files), while the newer service keeps every candidate of that file.
   */
  lemma LegacyDropsSingleSource(outcomes: seq<Option<string>>, k: nat)
    requires k < |outcomes| && outcomes[k].Some?
    requires forall i :: 0 <= i < |outcomes| && i != k ==> outcomes[i].None?
    ensures InitConsensus(outcomes) == {}
    ensures RefreshConsensus(AsBlocks(outcomes)) == ExtractChunk(outcomes[k].value)
  {
    Consensus.QuorumSingleSource(FileCodes(outcomes), k);
    PromoProperties.SingleSourceTrusted(AsBlocks(outcomes), k);
    WholeTextIsOneBlock(outcomes[k].value);
  }

  class PromoCodeService {
    var validCodes: set<string>
    var initialized: bool  // whether the `sync.Once` has fired

    /** `NewPromoCodeService`: an empty set, not yet initialised. */
    constructor ()
      ensures validCodes == {} && !initialized
    {
      validCodes := {};
      initialized := false;
    }

    /** Every stored code is well formed. */
    predicate Valid()
      reads this
    {
      forall c :: c in validCodes ==> ValidFormat(c)
    }

    /**
     * `Init`, given the outcome of downloading and reading each of the three files (`None` on
     * any error, which is logged and skipped). The body runs only on the first call; the
     * returned error is never set.
     */
    method Init(outcomes: seq<Option<string>>) returns (err: Option<string>)
      requires |outcomes| == |SourceUrls|
      modifies this
      ensures err == None
      ensures initialized
      ensures old(initialized) ==> validCodes == old(validCodes)
      ensures !old(initialized) ==> validCodes == old(validCodes) + InitConsensus(outcomes)
      ensures old(Valid()) ==> Valid()
    {
      err := None;
      if initialized {
        return;
      }
      initialized := true;

      var fileCodes: seq<set<string>> := [];
      var i := 0;
      while i < |outcomes|
        invariant 0 <= i <= |outcomes|
        invariant fileCodes == FileCodes(outcomes[..i])
        invariant initialized && validCodes == old(validCodes)
      {
        assert outcomes[..i + 1][..i] == outcomes[..i];
        if outcomes[i].None? {
          fileCodes := fileCodes + [{}];
        } else {
          var codes := DownloadAndProcessCouponFile(outcomes[i].value);
          fileCodes := fileCodes + [codes];
        }
        i := i + 1;
      }
      assert outcomes[..|outcomes|] == outcomes;

      var kept := Consensus.SelectByQuorum(fileCodes, 2);
      validCodes := validCodes + kept;
      Consensus.QuorumWithinUnion(fileCodes, 2);
      forall c | c in kept ensures ValidFormat(c) {
        Consensus.UnionMembership(fileCodes, c);
      }
    }

    /** `IsValidPromoCode`: reject a wrong length, then look up the upper-cased code. */
    function IsValidPromoCode(code: string): (valid: bool)
      reads this
      ensures valid <==> 8 <= |code| <= 10 && ToUpper(code) in validCodes
      ensures Valid() ==> (valid <==> Accepts(validCodes, code))
    {
      if |code| < 8 || |code| > 10 then false
      else ToUpper(code) in validCodes
    }
  }
}
