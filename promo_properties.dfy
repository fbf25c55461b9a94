/** What the promo-code service promises: format, extraction, consensus, lookup and seed data. */
module PromoProperties {
  import opened Wrappers
  import opened GoStrings
  import opened Validation
  import Consensus
  import opened Promo

  // ---------------------------------------------------------------------------
  // Format
  // ---------------------------------------------------------------------------

  /** The format cases the service's tests list: the three lengths, digits only, and the rejections. */
  lemma FormatExamples()
    ensures ValidFormat("HAPPYHRS") && ValidFormat("FIFTYOFF1") && ValidFormat("DISCOUNT10")
    ensures ValidFormat("SAVE20OFF") && ValidFormat("ABCDEFGH") && ValidFormat("12345678")
    ensures !ValidFormat("NEWUSER") && !ValidFormat("SHORT") && !ValidFormat("VERYLONGCODE")
    ensures !ValidFormat("happyhrs") && !ValidFormat("SAVE@20%") && !ValidFormat("SAVE 20")
    ensures !ValidFormat("")
  {
    assert !IsUpper("happyhrs"[0]);
    assert "SAVE@20%"[4] == '@';
  }

  /** After upper-casing, the format check accepts exactly the 8-10 character ASCII alphanumeric strings of either case. */
  lemma FormatOfUpper(s: string)
    ensures ValidFormat(ToUpper(s)) <==>
              8 <= |s| <= 10 && forall i :: 0 <= i < |s| ==> IsUpper(s[i]) || IsLower(s[i]) || IsDigit(s[i])
  {
    ToUpperAlphanumeric(s);
  }

  /** A well-formed code is a fixed point of the cleaning step, so extraction reproduces it verbatim. */
  lemma ValidFormatIsClean(code: string)
    requires ValidFormat(code)
    ensures SanitizeString(code) == code
  {
    SanitizeClean(code);
  }

  // ---------------------------------------------------------------------------
  // Extraction
  // ---------------------------------------------------------------------------

  /** Every word that cleans to a well-formed code contributes that code. */
  lemma {:induction false} ExtractWordsContains(words: seq<string>, k: nat)
    requires k < |words| && ValidFormat(SanitizeString(words[k]))
    ensures SanitizeString(words[k]) in ExtractWords(words)
    decreases |words|
  {
    if k < |words| - 1 {
      var init := words[..|words| - 1];
      assert init[k] == words[k];
      ExtractWordsContains(init, k);
    }
  }

  /** Every extracted code comes from some word that cleans to it. */
  lemma {:induction false} ExtractWordsSource(words: seq<string>, code: string) returns (k: nat)
    requires code in ExtractWords(words)
    ensures k < |words| && SanitizeString(words[k]) == code && ValidFormat(code)
    decreases |words|
  {
    var init := words[..|words| - 1];
    if code in ExtractWords(init) {
      k := ExtractWordsSource(init, code);
      assert init[k] == words[k];
    } else {
      k := |words| - 1;
    }
  }

  /**
   * A source's candidate set holds the cleaned form of every token of every read block
   * whose cleaned form is well formed ...
   */
  lemma {:induction false} CandidatesContains(chunks: seq<string>, j: nat, k: nat)
    requires j < |chunks| && k < |Fields(chunks[j])|
    requires ValidFormat(SanitizeString(Fields(chunks[j])[k]))
    ensures SanitizeString(Fields(chunks[j])[k]) in Candidates(chunks)
    decreases |chunks|
  {
    if j < |chunks| - 1 {
      var init := chunks[..|chunks| - 1];
      assert init[j] == chunks[j];
      CandidatesContains(init, j, k);
    } else {
      ExtractWordsContains(Fields(chunks[j]), k);
    }
  }

  /** ... and nothing else: each candidate is the cleaned form of some token of some block. */
  lemma {:induction false} CandidatesSource(chunks: seq<string>, code: string) returns (j: nat, k: nat)
    requires code in Candidates(chunks)
    ensures j < |chunks| && k < |Fields(chunks[j])|
    ensures SanitizeString(Fields(chunks[j])[k]) == code && ValidFormat(code)
    decreases |chunks|
  {
    var init := chunks[..|chunks| - 1];
    if code in Candidates(init) {
      j, k := CandidatesSource(init, code);
      assert init[j] == chunks[j];
    } else {
      j := |chunks| - 1;
      k := ExtractWordsSource(Fields(chunks[j]), code);
    }
  }

  lemma {:induction false} ExtractWordsAppend(a: seq<string>, b: seq<string>)
    ensures ExtractWords(a + b) == ExtractWords(a) + ExtractWords(b)
    decreases |b|
  {
    if b == [] {
      assert a + b == a;
    } else {
      assert (a + b)[..|a + b| - 1] == a + b[..|b| - 1];
      ExtractWordsAppend(a, b[..|b| - 1]);
    }
  }

  /** The text of all read blocks, in order. */
  function Concat(chunks: seq<string>): string
    decreases |chunks|
  {
    if chunks == [] then [] else Concat(chunks[..|chunks| - 1]) + chunks[|chunks| - 1]
  }

  predicate EndsOnSpace(s: string) { s == [] || IsSpace(s[|s| - 1]) }

  /**
   * Tokenising block by block agrees with tokenising the whole text whenever no read
   * boundary falls inside a word.
   */
  lemma {:induction false} ChunkedExtractionOnWordBoundaries(chunks: seq<string>)
    requires forall j :: 0 <= j < |chunks| - 1 ==> EndsOnSpace(chunks[j])
    ensures Candidates(chunks) == ExtractChunk(Concat(chunks))
    decreases |chunks|
  {
    if chunks != [] {
      var init := chunks[..|chunks| - 1];
      var last := chunks[|chunks| - 1];
      ChunkedExtractionOnWordBoundaries(init);
      assert EndsOnSpace(Concat(init)) by { ConcatEndsOnSpace(init); }
      FieldsAppend(Concat(init), last);
      ExtractWordsAppend(Fields(Concat(init)), Fields(last));
    }
  }

  lemma {:induction false} ConcatEndsOnSpace(chunks: seq<string>)
    requires forall j :: 0 <= j < |chunks| ==> EndsOnSpace(chunks[j])
    ensures EndsOnSpace(Concat(chunks))
    decreases |chunks|
  {
    if chunks != [] {
      var init := chunks[..|chunks| - 1];
      ConcatEndsOnSpace(init);
      var last := chunks[|chunks| - 1];
      if last == [] {
        assert Concat(chunks) == Concat(init);
      }
    }
  }

  /**
   * A code that straddles a read boundary is lost: it is found when the text arrives in one
   * block, but when the same text arrives as two blocks neither block's tokens is the whole code
   * (e.g. "ABCDEFGH" then "IJ").
   */
  lemma ChunkBoundarySplitsCode(p: string, q: string)
    requires p != [] && q != [] && NoSpace(p) && NoSpace(q)
    requires ValidFormat(p + q)
    ensures p + q in ExtractChunk(p + q)
    ensures p + q !in Candidates([p, q])
  {
    TwoChunks(p, q);
    TokenChunk(p);
    TokenChunk(q);
    SingleWordChunk(p + q);
  }

  /** A file read in two blocks has the union of the two blocks' candidates. */
  lemma TwoChunks(a: string, b: string)
    ensures Candidates([a, b]) == ExtractChunk(a) + ExtractChunk(b)
  {
    assert [a, b][..1] == [a];
    assert [a][..0] == [];
    assert Candidates([a, b]) == Candidates([a]) + ExtractChunk(b);
    assert Candidates([a]) == Candidates([]) + ExtractChunk(a);
  }

  /** A block holding a single token yields that token's cleaned form, if it is well formed. */
  lemma TokenChunk(w: string)
    requires w != [] && NoSpace(w)
    ensures ExtractChunk(w) == if ValidFormat(SanitizeString(w)) then {SanitizeString(w)} else {}
  {
    FieldsOfWord(w);
    assert [w][..0] == [];
    assert ExtractWords([w]) == ExtractWords([]) + (if ValidFormat(SanitizeString(w)) then {SanitizeString(w)} else {});
  }

  /** A block holding one well-formed code and nothing else yields exactly that code. */
  lemma SingleWordChunk(w: string)
    requires ValidFormat(w)
    ensures ExtractChunk(w) == {w}
  {
    ValidFormatIsClean(w);
    assert NoSpace(w) by {
      forall i | 0 <= i < |w| ensures !IsSpace(w[i]) {
        assert IsUpper(w[i]) || IsDigit(w[i]);
      }
    }
    TokenChunk(w);
  }

  /** A block holding only a two-character token yields nothing. */
  lemma ShortWordChunk()
    ensures ExtractChunk("IJ") == {}
  {
    TokenChunk("IJ");
  }

  /** A block holding one token with edge punctuation and lower case yields its cleaned form. */
  lemma NormalizationExample()
    ensures ExtractChunk("save20off!") == {"SAVE20OFF"}
  {
    SanitizeExample();
    assert ValidFormat("SAVE20OFF");
    assert NoSpace("save20off!");
    TokenChunk("save20off!");
  }

  /** Punctuation at a token's edge is dropped and the case is folded: "save20off!" becomes "SAVE20OFF". */
  lemma SanitizeExample()
    ensures SanitizeString("save20off!") == "SAVE20OFF"
  {
    SaveTrim();
    assert ToUpper("save20off") == "SAVE20OFF";
  }

  lemma SaveTrim()
    ensures Trim("save20off!") == "save20off"
  {
    assert LeftCut("save20off!") == 0;
    assert "save20off!"[0..] == "save20off!";
    SaveRightEnd();
  }

  lemma SaveRightEnd()
    ensures RightEnd("save20off!") == 9 && "save20off!"[..9] == "save20off"
  {
    assert "save20off!"[..9] == "save20off";
    assert RightEnd("save20off") == 9;
  }

  // ---------------------------------------------------------------------------
  // Consensus
  // ---------------------------------------------------------------------------

  /** A failed source counts for nothing: a code's count never exceeds the number of successful sources. */
  lemma {:induction false} CountAtMostSuccesses(outcomes: seq<Option<seq<string>>>, code: string)
    ensures Consensus.Count(SourceCodes(outcomes), code) <= Successes(outcomes)
    decreases |outcomes|
  {
    if outcomes != [] {
      var init := outcomes[..|outcomes| - 1];
      CountAtMostSuccesses(init, code);
      assert SourceCodes(outcomes)[..|outcomes| - 1] == SourceCodes(init);
    }
  }

  /** A code enters the refreshed set exactly when enough sources contain it. */
  lemma RefreshConsensusMembership(outcomes: seq<Option<seq<string>>>, code: string)
    ensures code in RefreshConsensus(outcomes) <==>
              Consensus.Count(SourceCodes(outcomes), code) >= Threshold(Successes(outcomes))
  {
    Consensus.QuorumMembership(SourceCodes(outcomes), Threshold(Successes(outcomes)), code);
  }

  /** With two or more successful sources, a code needs two of them; one is not enough. */
  lemma MajorityWithSeveralSources(outcomes: seq<Option<seq<string>>>, code: string)
    requires Successes(outcomes) >= 2
    ensures Consensus.Count(SourceCodes(outcomes), code) == 2 ==> code in RefreshConsensus(outcomes)
    ensures Consensus.Count(SourceCodes(outcomes), code) == 1 ==> code !in RefreshConsensus(outcomes)
  {
    RefreshConsensusMembership(outcomes, code);
  }

  /** No successful source: the consensus is empty (the cycle stops before using it). */
  lemma NoSuccessNoCodes(outcomes: seq<Option<seq<string>>>)
    requires Successes(outcomes) == 0
    ensures RefreshConsensus(outcomes) == {}
  {
    forall c ensures c !in RefreshConsensus(outcomes) {
      CountAtMostSuccesses(outcomes, c);
      RefreshConsensusMembership(outcomes, c);
    }
  }

  /** Exactly one successful source: the threshold drops to one and all of that source's candidates are kept. */
  lemma SingleSourceTrusted(outcomes: seq<Option<seq<string>>>, k: nat)
    requires k < |outcomes| && outcomes[k].Some?
    requires forall i :: 0 <= i < |outcomes| && i != k ==> outcomes[i].None?
    ensures Successes(outcomes) == 1
    ensures RefreshConsensus(outcomes) == Candidates(outcomes[k].value)
  {
    SuccessesSingle(outcomes, k);
    Consensus.QuorumSingleSource(SourceCodes(outcomes), k);
  }

  lemma {:induction false} SuccessesSingle(outcomes: seq<Option<seq<string>>>, k: nat)
    requires k < |outcomes| && outcomes[k].Some?
    requires forall i :: 0 <= i < |outcomes| && i != k ==> outcomes[i].None?
    ensures Successes(outcomes) == 1
    decreases |outcomes|
  {
    var init := outcomes[..|outcomes| - 1];
    if k == |outcomes| - 1 {
      SuccessesNone(init);
    } else {
      SuccessesSingle(init, k);
    }
  }

  lemma {:induction false} SuccessesNone(outcomes: seq<Option<seq<string>>>)
    requires forall i :: 0 <= i < |outcomes| ==> outcomes[i].None?
    ensures Successes(outcomes) == 0
    decreases |outcomes|
  {
    if outcomes != [] {
      SuccessesNone(outcomes[..|outcomes| - 1]);
    }
  }

  /**
   * Two sources succeed with {CODE1234, ABCDEFGH} and {CODE1234, ZZZZZZZZ}, the third fails:
   * only CODE1234 is corroborated.
   */
  lemma TwoOfThreeScenario()
    ensures Consensus.Quorum([{"CODE1234", "ABCDEFGH"}, {"CODE1234", "ZZZZZZZZ"}, {}], Threshold(2))
            == {"CODE1234"}
  {
    var files: seq<set<string>> := [{"CODE1234", "ABCDEFGH"}, {"CODE1234", "ZZZZZZZZ"}, {}];
    assert files[..2] == [{"CODE1234", "ABCDEFGH"}, {"CODE1234", "ZZZZZZZZ"}];
    assert files[..2][..1] == [{"CODE1234", "ABCDEFGH"}];
    assert files[..2][..1][..0] == [];
    forall c ensures c in Consensus.Quorum(files, 2) <==> c == "CODE1234" {
      Consensus.QuorumMembership(files, 2, c);
    }
  }

  // ---------------------------------------------------------------------------
  // Lookup
  // ---------------------------------------------------------------------------

  /** Lookup ignores case. */
  lemma AcceptsIgnoresCase(codes: set<string>, code: string)
    ensures Accepts(codes, code) == Accepts(codes, ToUpper(code))
  {
    ToUpperNormalizes(code);
  }

  /** A malformed code is rejected whatever the set holds; a well-formed one is accepted iff its upper-case form is stored. */
  lemma AcceptsOnlyWellFormed(codes: set<string>, code: string)
    ensures !ValidFormat(ToUpper(code)) ==> !Accepts(codes, code)
    ensures ValidFormat(ToUpper(code)) ==> (Accepts(codes, code) <==> ToUpper(code) in codes)
  {
  }

  lemma LookupExamples()
    ensures Accepts({"HAPPYHRS"}, "happyhrs")
    ensures Accepts({"FIFTYOFF"}, "FiftyOff")
    ensures !Accepts({"TOOLONGCODE123"}, "TOOLONGCODE123")
    ensures !Accepts({"HAPPYHRS", "FIFTYOFF", "TESTCODE"}, "NOTFOUND")
  {
    assert ToUpper("happyhrs") == "HAPPYHRS";
    assert ToUpper("FiftyOff") == "FIFTYOFF";
    assert ToUpper("NOTFOUND") == "NOTFOUND";
  }

  // ---------------------------------------------------------------------------
  // Seed data
  // ---------------------------------------------------------------------------

  /** The seed codes written out as a set. */
  const MockDisplay: set<string> := {"HAPPYHRS", "FIFTYOFF", "WELCOME1", "NEWUSER2", "DISCOUNT",
                                     "SAVE20PC", "FREESHIP", "SUMMER25", "AUTUMN30", "WINTER15",
                                     "STUDENT", "BIRTHDAY", "LOYALTY5", "REFERRAL", "COMEBACK"}

  /** The seed list holds exactly these fifteen codes. */
  lemma MockSetContents()
    ensures MockSet() == MockDisplay
  {
    var s := MockSet();
    forall i | 0 <= i < |MockCodes| ensures MockCodes[i] in MockDisplay {
      if i == 0 {} else if i == 1 {} else if i == 2 {} else if i == 3 {} else if i == 4 {}
      else if i == 5 {} else if i == 6 {} else if i == 7 {} else if i == 8 {} else if i == 9 {}
      else if i == 10 {} else if i == 11 {} else if i == 12 {} else if i == 13 {} else {}
    }
    assert s <= MockDisplay;
    assert MockCodes[0] in s && MockCodes[1] in s && MockCodes[2] in s && MockCodes[3] in s && MockCodes[4] in s;
    assert MockCodes[5] in s && MockCodes[6] in s && MockCodes[7] in s && MockCodes[8] in s && MockCodes[9] in s;
    assert MockCodes[10] in s && MockCodes[11] in s && MockCodes[12] in s && MockCodes[13] in s && MockCodes[14] in s;
  }

  /** The fifteen seed codes are distinct, so on a fresh service the counter equals the set's size. */
  lemma MockSetSize()
    ensures |MockSet()| == |MockCodes| == 15
  {
    MockSetContents();
    MockDisplaySize();
  }

  lemma MockDisplaySize()
    ensures |MockDisplay| == 15
  {
    var a := {"HAPPYHRS", "FIFTYOFF", "WELCOME1", "NEWUSER2", "DISCOUNT", "SAVE20PC", "FREESHIP"};
    var b := {"SUMMER25", "AUTUMN30", "WINTER15", "STUDENT", "BIRTHDAY", "LOYALTY5", "REFERRAL", "COMEBACK"};
    assert MockDisplay == a + b;
    SeedHalvesSizes();
    SeedHalvesDisjoint();
  }

  lemma SeedHalvesSizes()
    ensures |{"HAPPYHRS", "FIFTYOFF", "WELCOME1", "NEWUSER2", "DISCOUNT", "SAVE20PC", "FREESHIP"}| == 7
    ensures |{"SUMMER25", "AUTUMN30", "WINTER15", "STUDENT", "BIRTHDAY", "LOYALTY5", "REFERRAL", "COMEBACK"}| == 8
  {
  }

  lemma SeedHalvesDisjoint()
    ensures {"HAPPYHRS", "FIFTYOFF", "WELCOME1", "NEWUSER2", "DISCOUNT", "SAVE20PC", "FREESHIP"}
          * {"SUMMER25", "AUTUMN30", "WINTER15", "STUDENT", "BIRTHDAY", "LOYALTY5", "REFERRAL", "COMEBACK"} == {}
  {
  }

  /** "STUDENT" is seeded but can never be redeemed; every other seed code can. */
  lemma MockStudentUnredeemable()
    ensures "STUDENT" in MockSet() && !Accepts(MockSet(), "STUDENT")
    ensures forall i :: 0 <= i < |MockCodes| && MockCodes[i] != "STUDENT" ==> Accepts(MockSet(), MockCodes[i])
  {
    assert MockCodes[10] == "STUDENT";
    forall i | 0 <= i < |MockCodes| && MockCodes[i] != "STUDENT" ensures Accepts(MockSet(), MockCodes[i]) {
      var c := MockCodes[i];
      if i < 10 { SeedWellFormedLow(i); } else { SeedWellFormedHigh(i); }
      ValidFormatIsClean(c);
      TrimClean(c);
    }
  }

  lemma SeedWellFormedLow(i: nat)
    requires i < 10
    ensures ValidFormat(MockCodes[i])
  {
    if i == 0 {} else if i == 1 {} else if i == 2 {} else if i == 3 {} else if i == 4 {}
    else if i == 5 {} else if i == 6 {} else if i == 7 {} else if i == 8 {} else {}
  }

  lemma SeedWellFormedHigh(i: nat)
    requires 10 < i < |MockCodes|
    ensures ValidFormat(MockCodes[i])
  {
    if i == 11 {} else if i == 12 {} else if i == 13 {} else {}
  }
}
