/**
 * The promo-code service: the format check, candidate extraction from the downloaded text,
 * the quorum consensus across sources, and the service object whose fields hold the current
 * code set and its load status.
 */
module Promo {
  import opened Wrappers
  import opened GoStrings
  import opened Validation
  import Consensus

  /** The three coupon files a refresh cycle downloads. */
  const SourceUrls: seq<string> := [
    "https://orderfoodonline-files.s3.ap-southeast-2.amazonaws.com/couponbase1.gz",
    "https://orderfoodonline-files.s3.ap-southeast-2.amazonaws.com/couponbase2.gz",
    "https://orderfoodonline-files.s3.ap-southeast-2.amazonaws.com/couponbase3.gz"
  ]

  /** The seed list loaded at start-up. "STUDENT" has only seven characters. */
  const MockCodes: seq<string> := [
    "HAPPYHRS", "FIFTYOFF", "WELCOME1", "NEWUSER2", "DISCOUNT",
    "SAVE20PC", "FREESHIP", "SUMMER25", "AUTUMN30", "WINTER15",
    "STUDENT", "BIRTHDAY", "LOYALTY5", "REFERRAL", "COMEBACK"
  ]

  function MockSet(): set<string> { set c | c in MockCodes }

  const TempDirErrorPrefix: string := "failed to create temp directory: "
  const NoFilesError: string := "background download failed: no coupon files processed"
  const NoValidCodesError: string := "no valid codes found"
  const ProcessingErrorPrefix: string := "background processing failed: "

  /** A well-formed promo code: 8 to 10 characters, each an upper-case ASCII letter or a digit. */
  predicate ValidFormat(code: string)
  {
    8 <= |code| <= 10 && forall i :: 0 <= i < |code| ==> IsUpper(code[i]) || IsDigit(code[i])
  }

  /** `isValidPromoCodeFormat`: the length test, then a scan that stops at the first bad character. */
  method IsValidPromoCodeFormat(code: string) returns (ok: bool)
    ensures ok == ValidFormat(code)
  {
    var n := |code|;
    if n < 8 || n > 10 {
      return false;
    }
    for i := 0 to n
      invariant forall k :: 0 <= k < i ==> IsUpper(code[k]) || IsDigit(code[k])
    {
      var c := code[i];
      if !(IsUpper(c) || IsDigit(c)) {
        return false;
      }
    }
    return true;
  }

  /** The candidates from a list of whitespace-separated words: cleaned words of valid format. */
  function ExtractWords(words: seq<string>): (codes: set<string>)
    ensures forall c :: c in codes ==> ValidFormat(c)
    decreases |words|
  {
    if words == [] then {}
    else
      var cleaned := SanitizeString(words[|words| - 1]);
      ExtractWords(words[..|words| - 1]) + (if ValidFormat(cleaned) then {cleaned} else {})
  }

  /** Extending the token list by one token adds that token's cleaned form when it is well formed. */
  lemma ExtractWordsSnoc(words: seq<string>, j: nat)
    requires j < |words|
    ensures ExtractWords(words[..j + 1]) == ExtractWords(words[..j]) +
              (if ValidFormat(SanitizeString(words[j])) then {SanitizeString(words[j])} else {})
  {
    assert words[..j + 1][..j] == words[..j];
  }

  /** The candidates of one block of text returned by one `Read` call. */
  function ExtractChunk(text: string): (codes: set<string>)
    ensures forall c :: c in codes ==> ValidFormat(c)
  {
    ExtractWords(Fields(text))
  }

  /** The candidates of a whole file: every read block is tokenised on its own, and the results are merged. */
  function Candidates(chunks: seq<string>): (codes: set<string>)
    ensures forall c :: c in codes ==> ValidFormat(c)
    decreases |chunks|
  {
    if chunks == [] then {} else Candidates(chunks[..|chunks| - 1]) + ExtractChunk(chunks[|chunks| - 1])
  }

  /** The body of the reading loop for one block: split it into fields, clean each, keep the well-formed ones. */
  method ExtractFromBlock(text: string) returns (codes: set<string>)
    ensures codes == ExtractChunk(text)
  {
    var words := Fields(text);
    codes := {};
    var j := 0;
    while j < |words|
      invariant 0 <= j <= |words|
      invariant codes == ExtractWords(words[..j])
    {
      var cleaned := SanitizeString(words[j]);
      var ok := IsValidPromoCodeFormat(cleaned);
      if ok {
        codes := codes + {cleaned};
      }
      ExtractWordsSnoc(words, j);
      j := j + 1;
    }
    assert words[..|words|] == words;
  }

  /**
   * The reading loop of `processGzipFile`, given the blocks of decompressed text in the order
   * the reads returned them: each block is tokenised on its own and its codes are merged in.
   */
  method ProcessGzipFile(chunks: seq<string>) returns (codes: set<string>)
    ensures codes == Candidates(chunks)
  {
    codes := {};
    var i := 0;
    while i < |chunks|
      invariant 0 <= i <= |chunks|
      invariant codes == Candidates(chunks[..i])
    {
      var blockCodes := ExtractFromBlock(chunks[i]);
      codes := codes + blockCodes;
      assert chunks[..i + 1][..i] == chunks[..i];
      i := i + 1;
    }
    assert chunks[..|chunks|] == chunks;
  }

  /** The consensus threshold: one source suffices when exactly one download succeeded, otherwise two. */
  function Threshold(successCount: nat): (t: nat)
    ensures 1 <= t <= 2
    ensures t == 1 <==> successCount == 1
  {
    if successCount == 1 then 1 else 2
  }

  /**
   * The per-source candidate sets of one cycle: a failed source leaves a nil map in its slot,
   * which the tally reads as an empty set.
   */
  function SourceCodes(outcomes: seq<Option<seq<string>>>): (files: seq<set<string>>)
    ensures |files| == |outcomes|
    ensures forall i :: 0 <= i < |outcomes| ==>
              files[i] == (if outcomes[i].Some? then Candidates(outcomes[i].value) else {})
    decreases |outcomes|
  {
    if outcomes == [] then []
    else
      var last := outcomes[|outcomes| - 1];
      SourceCodes(outcomes[..|outcomes| - 1]) + [if last.Some? then Candidates(last.value) else {}]
  }

  /** The number of sources that were downloaded and read without error. */
  function Successes(outcomes: seq<Option<seq<string>>>): (n: nat)
    ensures n <= |outcomes|
    decreases |outcomes|
  {
    if outcomes == [] then 0
    else Successes(outcomes[..|outcomes| - 1]) + (if outcomes[|outcomes| - 1].Some? then 1 else 0)
  }

  /** The code set a refresh cycle computes from its download outcomes. */
  function RefreshConsensus(outcomes: seq<Option<seq<string>>>): set<string>
  {
    Consensus.Quorum(SourceCodes(outcomes), Threshold(Successes(outcomes)))
  }

  /** The answer `IsValidPromoCode` gives for `code` against the set `codes`. */
  predicate Accepts(codes: set<string>, code: string)
  {
    ValidFormat(ToUpper(code)) && ToUpper(code) in codes
  }

  /** `ServiceStatus`, as reported to the health handler. */
  datatype ServiceStatus = ServiceStatus(
    status: string,        // "initializing", "loading" or "ready"
    dataSource: string,    // "none", "mock" or "remote"
    codesLoaded: int,
    isFullyLoaded: bool,
    lastError: string      // "" when no error is recorded
  )

  class PromoCodeService {
    var validCodes: set<string>
    var isLoaded: bool
    var codesCount: nat
    var loadError: Option<string>

    /** `NewPromoCodeService`: no codes, not loaded, no error. */
    constructor ()
      ensures validCodes == {} && !isLoaded && codesCount == 0 && loadError == None
    {
      validCodes := {};
      isLoaded := false;
      codesCount := 0;
      loadError := None;
    }

    /** The counter agrees with the set it counts. */
    predicate CountMatches()
      reads this
    {
      codesCount == |validCodes|
    }

    /**
     * The synchronous part of `Initialize`: load the seed codes and report success. The
     * background cycle it then launches is `DownloadCodesAsync`, which a caller runs next.
     */
    method Initialize() returns (err: Option<string>)
      modifies this
      ensures err == None
      ensures validCodes == old(validCodes) + MockSet() && codesCount == |MockCodes|
      ensures isLoaded == old(isLoaded) && loadError == old(loadError)
    {
      LoadMockPromoCodes();
      err := None;
    }

    /** `LoadMockPromoCodes`: add the seed codes to the current set and set the counter to the seed list's length. */
    method LoadMockPromoCodes()
      modifies this
      ensures validCodes == old(validCodes) + MockSet()
      ensures codesCount == |MockCodes|
      ensures isLoaded == old(isLoaded) && loadError == old(loadError)
    {
      var i := 0;
      while i < |MockCodes|
        invariant 0 <= i <= |MockCodes|
        invariant validCodes == old(validCodes) + set c | c in MockCodes[..i]
        invariant isLoaded == old(isLoaded) && loadError == old(loadError)
      {
        validCodes := validCodes + {MockCodes[i]};
        assert MockCodes[..i + 1] == MockCodes[..i] + [MockCodes[i]];
        i := i + 1;
      }
      assert MockCodes[..|MockCodes|] == MockCodes;
      codesCount := |MockCodes|;
    }

    /** `IsValidPromoCode`: upper-case the input, reject a malformed code, otherwise look it up. */
    method IsValidPromoCode(code: string) returns (valid: bool)
      ensures valid == Accepts(validCodes, code)
      ensures !ValidFormat(ToUpper(code)) ==> !valid
    {
      var upperCode := ToUpper(code);
      var ok := IsValidPromoCodeFormat(upperCode);
      if !ok {
        return false;
      }
      valid := upperCode in validCodes;
    }

    /** `GetValidCodesCount`: the stored counter. */
    function GetValidCodesCount(): (n: nat)
      reads this
      ensures n == codesCount
      ensures CountMatches() ==> n == |validCodes|
    {
      codesCount
    }

    /** `GetServiceStatus`: ready/remote once fully loaded, else loading/mock while codes exist, else initializing/none. */
    function GetServiceStatus(): (s: ServiceStatus)
      reads this
      ensures s.codesLoaded == codesCount && s.isFullyLoaded == isLoaded
      ensures s.lastError == (if loadError.Some? then loadError.value else "")
      ensures (s.status == "ready") == isLoaded && (s.dataSource == "remote") == isLoaded
      ensures (s.status == "loading") == (!isLoaded && codesCount > 0)
      ensures (s.dataSource == "mock") == (!isLoaded && codesCount > 0)
      ensures (s.status == "initializing") == (!isLoaded && codesCount == 0)
      ensures (s.dataSource == "none") == (!isLoaded && codesCount == 0)
    {
      var codesLoaded := GetValidCodesCount();
      var lastError := if loadError.Some? then loadError.value else "";
      if isLoaded then ServiceStatus("ready", "remote", codesLoaded, true, lastError)
      else if codesLoaded > 0 then ServiceStatus("loading", "mock", codesLoaded, false, lastError)
      else ServiceStatus("initializing", "none", codesLoaded, false, lastError)
    }

    /**
     * `replaceWithRealCodes`: tally the per-source sets, keep the codes that reach the
     * threshold, and install them, unless nothing was kept.
     */
    method ReplaceWithRealCodes(fileCodes: seq<set<string>>, successCount: nat) returns (err: Option<string>)
      modifies this
      ensures Consensus.Quorum(fileCodes, Threshold(successCount)) == {} ==>
                err == Some(NoValidCodesError) && validCodes == old(validCodes) && codesCount == old(codesCount)
      ensures Consensus.Quorum(fileCodes, Threshold(successCount)) != {} ==>
                err == None && validCodes == Consensus.Quorum(fileCodes, Threshold(successCount))
                && codesCount == |validCodes|
      ensures isLoaded == old(isLoaded) && loadError == old(loadError)
    {
      var minOccurrences := 2;
      if successCount == 1 {
        minOccurrences := 1;
      }
      var newValidCodes := Consensus.SelectByQuorum(fileCodes, minOccurrences);
      if |newValidCodes| == 0 {
        return Some(NoValidCodesError);
      }
      validCodes := newValidCodes;
      codesCount := |newValidCodes|;
      err := None;
    }

    /**
     * One refresh cycle (`downloadCodesAsync`). `tempDirError` is the failure of creating the
     * download directory, if any; `outcomes[i]` is `None` when downloading or decompressing
     * file `i` failed and otherwise the blocks of text its reads returned.
     */
    method DownloadCodesAsync(tempDirError: Option<string>, outcomes: seq<Option<seq<string>>>)
      requires |outcomes| == |SourceUrls|
      modifies this
      // the directory could not be created
      ensures tempDirError.Some? ==>
                !isLoaded && loadError == Some(TempDirErrorPrefix + tempDirError.value)
                && validCodes == old(validCodes) && codesCount == old(codesCount)
      // no file could be processed
      ensures tempDirError.None? && Successes(outcomes) == 0 ==>
                !isLoaded && loadError == Some(NoFilesError)
                && validCodes == old(validCodes) && codesCount == old(codesCount)
      // the consensus was empty
      ensures tempDirError.None? && Successes(outcomes) > 0 && RefreshConsensus(outcomes) == {} ==>
                !isLoaded && loadError == Some(ProcessingErrorPrefix + NoValidCodesError)
                && validCodes == old(validCodes) && codesCount == old(codesCount)
      // success
      ensures tempDirError.None? && Successes(outcomes) > 0 && RefreshConsensus(outcomes) != {} ==>
                isLoaded && loadError == None
                && validCodes == RefreshConsensus(outcomes) && codesCount == |validCodes|
      ensures isLoaded <==> loadError.None?
      ensures old(CountMatches()) ==> CountMatches()
      ensures old(validCodes) != {} ==> validCodes != {}
    {
      isLoaded := false;
      loadError := None;

      if tempDirError.Some? {
        loadError := Some(TempDirErrorPrefix + tempDirError.value);
        return;
      }

      var fileCodes: seq<set<string>> := [];
      var successCount := 0;
      var i := 0;
      while i < |outcomes|
        invariant 0 <= i <= |outcomes|
        invariant fileCodes == SourceCodes(outcomes[..i])
        invariant successCount == Successes(outcomes[..i])
        invariant !isLoaded && loadError == None
        invariant validCodes == old(validCodes) && codesCount == old(codesCount)
      {
        assert outcomes[..i + 1][..i] == outcomes[..i];
        if outcomes[i].None? {
          fileCodes := fileCodes + [{}];
        } else {
          var codes := ProcessGzipFile(outcomes[i].value);
          fileCodes := fileCodes + [codes];
          successCount := successCount + 1;
        }
        i := i + 1;
      }
      assert outcomes[..|outcomes|] == outcomes;

      if successCount == 0 {
        loadError := Some(NoFilesError);
        return;
      }

      var err := ReplaceWithRealCodes(fileCodes, successCount);
      if err.Some? {
        loadError := Some(ProcessingErrorPrefix + err.value);
        return;
      }

      isLoaded := true;
    }

    /**
     * `ForceReload`: one more refresh cycle, run here to completion. The cycle starts from the
     * current codes, so a failure leaves them in place and a success replaces them.
     */
    method ForceReload(tempDirError: Option<string>, outcomes: seq<Option<seq<string>>>)
      requires |outcomes| == |SourceUrls|
      modifies this
      ensures tempDirError.Some? ==>
                !isLoaded && loadError == Some(TempDirErrorPrefix + tempDirError.value)
                && validCodes == old(validCodes) && codesCount == old(codesCount)
      ensures tempDirError.None? && Successes(outcomes) == 0 ==>
                !isLoaded && loadError == Some(NoFilesError)
                && validCodes == old(validCodes) && codesCount == old(codesCount)
      ensures tempDirError.None? && Successes(outcomes) > 0 && RefreshConsensus(outcomes) == {} ==>
                !isLoaded && loadError == Some(ProcessingErrorPrefix + NoValidCodesError)
                && validCodes == old(validCodes) && codesCount == old(codesCount)
      ensures tempDirError.None? && Successes(outcomes) > 0 && RefreshConsensus(outcomes) != {} ==>
                isLoaded && loadError == None
                && validCodes == RefreshConsensus(outcomes) && codesCount == |validCodes|
      ensures isLoaded <==> loadError.None?
    {
      DownloadCodesAsync(tempDirError, outcomes);
    }
  }
}
