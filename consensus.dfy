/**
 * The cross-source tally that both promo-code services run: every source contributes the set
 * of candidate codes it yielded, each code is counted once per source that contains it, and the
 * codes counted at least a minimum number of times are kept.
 */
module Consensus {

  /** The number of sources whose candidate set contains `code`. */
  function Count(files: seq<set<string>>, code: string): (n: nat)
    ensures n <= |files|
    decreases |files|
  {
    if files == [] then 0
    else Count(files[..|files| - 1], code) + (if code in files[|files| - 1] then 1 else 0)
  }

  /** Every code seen in some source. */
  function Union(files: seq<set<string>>): set<string>
    decreases |files|
  {
    if files == [] then {} else Union(files[..|files| - 1]) + files[|files| - 1]
  }

  /** The codes present in at least `minOcc` sources. */
  function Quorum(files: seq<set<string>>, minOcc: nat): set<string>
  {
    set c | c in Union(files) && Count(files, c) >= minOcc
  }

  /** A code is counted by some source exactly when some source holds it. */
  lemma {:induction false} CountPositiveIffInUnion(files: seq<set<string>>, code: string)
    ensures Count(files, code) > 0 <==> code in Union(files)
    decreases |files|
  {
    if files != [] {
      CountPositiveIffInUnion(files[..|files| - 1], code);
    }
  }

  /** The union holds exactly the codes of the individual sources. */
  lemma {:induction false} UnionMembership(files: seq<set<string>>, code: string)
    ensures code in Union(files) <==> exists i :: 0 <= i < |files| && code in files[i]
    decreases |files|
  {
    if files != [] {
      var init := files[..|files| - 1];
      UnionMembership(init, code);
      if code in Union(init) {
        var i :| 0 <= i < |init| && code in init[i];
        assert files[i] == init[i];
      }
      if exists i :: 0 <= i < |files| && code in files[i] {
        var i :| 0 <= i < |files| && code in files[i];
        if i < |init| {
          assert init[i] == files[i];
        }
      }
    }
  }

  /** With a positive threshold, membership in the quorum is exactly "counted often enough". */
  lemma QuorumMembership(files: seq<set<string>>, minOcc: nat, code: string)
    requires minOcc >= 1
    ensures code in Quorum(files, minOcc) <==> Count(files, code) >= minOcc
  {
    CountPositiveIffInUnion(files, code);
  }

  /** The quorum only ever contains codes that some source supplied. */
  lemma QuorumWithinUnion(files: seq<set<string>>, minOcc: nat)
    ensures Quorum(files, minOcc) <= Union(files)
  {
  }

  /** A source that yields nothing (a failed download) changes no count. */
  lemma {:induction false} CountIgnoresEmpty(files: seq<set<string>>, k: nat, code: string)
    requires k < |files| && files[k] == {}
    ensures Count(files, code) == Count(files[..k] + files[k + 1..], code)
    decreases |files|
  {
    var init := files[..|files| - 1];
    if k == |files| - 1 {
      assert files[..k] + files[k + 1..] == init;
    } else {
      CountIgnoresEmpty(init, k, code);
      var rest := files[..k] + files[k + 1..];
      assert rest[..|rest| - 1] == init[..k] + init[k + 1..];
      assert rest[|rest| - 1] == files[|files| - 1];
    }
  }

  /** When every source but one is empty, counts are 0 or 1 and follow that one source. */
  lemma {:induction false} CountSingleSource(files: seq<set<string>>, k: nat, code: string)
    requires k < |files|
    requires forall i :: 0 <= i < |files| && i != k ==> files[i] == {}
    ensures Count(files, code) == if code in files[k] then 1 else 0
    decreases |files|
  {
    var init := files[..|files| - 1];
    if k == |files| - 1 {
      CountNone(init, code);
    } else {
      CountSingleSource(init, k, code);
    }
  }

  lemma {:induction false} CountNone(files: seq<set<string>>, code: string)
    requires forall i :: 0 <= i < |files| ==> files[i] == {}
    ensures Count(files, code) == 0
    decreases |files|
  {
    if files != [] {
      CountNone(files[..|files| - 1], code);
    }
  }

  /** Threshold 1 over a single non-empty source keeps all of it; threshold 2 keeps nothing. */
  lemma QuorumSingleSource(files: seq<set<string>>, k: nat)
    requires k < |files|
    requires forall i :: 0 <= i < |files| && i != k ==> files[i] == {}
    ensures Quorum(files, 1) == files[k]
    ensures Quorum(files, 2) == {}
  {
    forall c ensures c in Quorum(files, 1) <==> c in files[k] {
      QuorumMembership(files, 1, c);
      CountSingleSource(files, k, c);
    }
    forall c ensures c !in Quorum(files, 2) {
      QuorumMembership(files, 2, c);
      CountSingleSource(files, k, c);
    }
  }

  /** One more source adds one to the counts of exactly the codes it holds. */
  lemma CountSnoc(files: seq<set<string>>, s: set<string>, code: string)
    ensures Count(files + [s], code) == Count(files, code) + (if code in s then 1 else 0)
    ensures Union(files + [s]) == Union(files) + s
  {
    assert (files + [s])[..|files|] == files;
  }

  /**
   * The counting loop: `codeCount[code]++` for every code of every source. A source's codes
   * form a set, so a code repeated in one source's text is counted once for that source.
   */
  method TallyCodes(files: seq<set<string>>) returns (tally: map<string, nat>)
    ensures tally.Keys == Union(files)
    ensures forall c :: c in tally ==> tally[c] == Count(files, c)
  {
    tally := map[];
    var i := 0;
    while i < |files|
      invariant 0 <= i <= |files|
      invariant tally.Keys == Union(files[..i])
      invariant forall c :: c in tally ==> tally[c] == Count(files[..i], c)
    {
      ghost var prefix := files[..i];
      var before := tally;
      tally := AddSource(tally, files[i]);
      assert files[..i + 1] == prefix + [files[i]];
      forall c | c in tally ensures tally[c] == Count(files[..i + 1], c) {
        CountSnoc(prefix, files[i], c);
        if c !in before {
          CountPositiveIffInUnion(prefix, c);
        }
      }
      CountSnoc(prefix, files[i], "");
      i := i + 1;
    }
    assert files[..|files|] == files;
  }

  /** The inner counting loop over one source: every code of `s` gets one more count. */
  method AddSource(tally: map<string, nat>, s: set<string>) returns (t: map<string, nat>)
    ensures t.Keys == tally.Keys + s
    ensures forall c :: c in t ==> t[c] == (if c in tally then tally[c] else 0) + (if c in s then 1 else 0)
  {
    t := tally;
    var rest := s;
    while rest != {}
      invariant rest <= s
      invariant t.Keys == tally.Keys + (s - rest)
      invariant forall c :: c in t ==> t[c] == (if c in tally then tally[c] else 0) + (if c in s - rest then 1 else 0)
      decreases rest
    {
      var code :| code in rest;
      t := t[code := (if code in t then t[code] else 0) + 1];
      rest := rest - {code};
    }
  }

  /** The selection loop: keep every tallied code whose count reaches `minOcc`. */
  method SelectByQuorum(files: seq<set<string>>, minOcc: nat) returns (codes: set<string>)
    ensures codes == Quorum(files, minOcc)
  {
    var tally := TallyCodes(files);
    codes := {};
    var rest := tally.Keys;
    while rest != {}
      invariant rest <= tally.Keys
      invariant codes == set c | c in tally.Keys - rest && tally[c] >= minOcc
      decreases rest
    {
      var code :| code in rest;
      if tally[code] >= minOcc {
        codes := codes + {code};
      }
      rest := rest - {code};
    }
  }
}
