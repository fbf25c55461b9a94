/**
 * The parts of Go's `strings` package the core relies on, restricted to ASCII text:
 * `strings.ToUpper`, `strings.Trim` with the fixed punctuation cutset, and `strings.Fields`.
 */
module GoStrings {

  predicate IsUpper(c: char) { 'A' <= c <= 'Z' }
  predicate IsLower(c: char) { 'a' <= c <= 'z' }
  predicate IsDigit(c: char) { '0' <= c <= '9' }

  /** `unicode.IsSpace` on ASCII: tab, line feed, vertical tab, form feed, carriage return, space. */
  predicate IsSpace(c: char) { c == ' ' || '\t' <= c <= '\r' }

  /** ASCII upper-casing of one character; every other character is left alone. */
  function UpperChar(c: char): (u: char)
    ensures IsLower(c) ==> IsUpper(u) && u as int == c as int - 32
    ensures !IsLower(c) ==> u == c
  {
    if IsLower(c) then (c as int - 32) as char else c
  }

  /** `strings.ToUpper` on ASCII text. */
  function ToUpper(s: string): (r: string)
    ensures |r| == |s|
    ensures forall i :: 0 <= i < |s| ==> r[i] == UpperChar(s[i])
  {
    seq(|s|, i requires 0 <= i < |s| => UpperChar(s[i]))
  }

  /** The punctuation `.,!?;:"'()[]{}` that every caller of `strings.Trim` in the core strips from word edges. */
  predicate InCutset(c: char)
  {
    c == '.' || c == ',' || c == '!' || c == '?' || c == ';' || c == ':' || c == '"' || c == '\''
    || c == '(' || c == ')' || c == '[' || c == ']' || c == '{' || c == '}'
  }

  /** Number of leading cutset characters. */
  function LeftCut(s: string): (n: nat)
    ensures n <= |s|
    ensures forall k :: 0 <= k < n ==> InCutset(s[k])
    ensures n < |s| ==> !InCutset(s[n])
    decreases |s|
  {
    if s != [] && InCutset(s[0]) then 1 + LeftCut(s[1..]) else 0
  }

  /** Index just past the last character that is not in the cutset (0 if there is none). */
  function RightEnd(s: string): (n: nat)
    ensures n <= |s|
    ensures forall k :: n <= k < |s| ==> InCutset(s[k])
    ensures n > 0 ==> !InCutset(s[n - 1])
    decreases |s|
  {
    if s != [] && InCutset(s[|s| - 1]) then RightEnd(s[..|s| - 1]) else |s|
  }

  /** `strings.Trim(s, Cutset)`: drop the cutset characters at the left edge, then at the right edge. */
  function Trim(s: string): (r: string)
    ensures |r| <= |s|
    ensures r == [] || (!InCutset(r[0]) && !InCutset(r[|r| - 1]))
  {
    var t := s[LeftCut(s)..];
    t[..RightEnd(t)]
  }

  /** Length of the leading run of non-space characters. */
  function WordLen(s: string): (n: nat)
    ensures n <= |s|
    ensures forall k :: 0 <= k < n ==> !IsSpace(s[k])
    ensures n < |s| ==> IsSpace(s[n])
    decreases |s|
  {
    if s == [] || IsSpace(s[0]) then 0 else 1 + WordLen(s[1..])
  }

  predicate NoSpace(w: string) { forall k :: 0 <= k < |w| ==> !IsSpace(w[k]) }

  predicate AllSpace(s: string) { forall k :: 0 <= k < |s| ==> IsSpace(s[k]) }

  /**
   * `strings.Fields`: the maximal runs of non-space characters, in order. `FieldsOfLayout`
   * shows that the fields of words laid out between whitespace gaps are exactly those words.
   */
  function Fields(s: string): (ws: seq<string>)
    ensures forall i :: 0 <= i < |ws| ==> ws[i] != [] && NoSpace(ws[i])
    ensures ws == [] <==> AllSpace(s)
    decreases |s|
  {
    if s == [] then []
    else if IsSpace(s[0]) then Fields(s[1..])
    else
      var n := WordLen(s);
      [s[..n]] + Fields(s[n..])
  }

  // ---------------------------------------------------------------------------
  // Properties of the library model
  // ---------------------------------------------------------------------------

  /** Upper-casing leaves no lower-case letter behind and is idempotent. */
  lemma ToUpperNormalizes(s: string)
    ensures forall i :: 0 <= i < |s| ==> !IsLower(ToUpper(s)[i])
    ensures ToUpper(ToUpper(s)) == ToUpper(s)
  {
  }

  /** A letter or digit stays a letter or digit under upper-casing, and only upper-case letters and digits remain. */
  lemma ToUpperAlphanumeric(s: string)
    ensures (forall i :: 0 <= i < |s| ==> IsUpper(s[i]) || IsLower(s[i]) || IsDigit(s[i]))
        <==> (forall i :: 0 <= i < |s| ==> IsUpper(ToUpper(s)[i]) || IsDigit(ToUpper(s)[i]))
  {
    if !(forall i :: 0 <= i < |s| ==> IsUpper(s[i]) || IsLower(s[i]) || IsDigit(s[i])) {
      var i :| 0 <= i < |s| && !(IsUpper(s[i]) || IsLower(s[i]) || IsDigit(s[i]));
      assert ToUpper(s)[i] == s[i];
    }
  }

  /** Trim removes only cutset characters, and only at the two edges: the result is a slice of the input. */
  lemma TrimIsCutsetStrip(s: string)
    ensures exists i, j :: 0 <= i <= j <= |s| && Trim(s) == s[i..j]
                        && (forall k :: 0 <= k < i ==> InCutset(s[k]))
                        && (forall k :: j <= k < |s| ==> InCutset(s[k]))
  {
    var i := LeftCut(s);
    var t := s[i..];
    var j := i + RightEnd(t);
    assert Trim(s) == s[i..j];
    assert forall k :: j <= k < |s| ==> s[k] == t[k - i];
  }

  /** A string whose edges are not cutset characters is its own trim; hence Trim is idempotent. */
  lemma TrimClean(s: string)
    requires s == [] || (!InCutset(s[0]) && !InCutset(s[|s| - 1]))
    ensures Trim(s) == s
  {
    assert LeftCut(s) == 0;
    assert s[0..] == s;
    assert RightEnd(s) == |s|;
  }

  lemma TrimIdempotent(s: string)
    ensures Trim(Trim(s)) == Trim(s)
  {
    TrimClean(Trim(s));
  }

  /** Upper-casing never creates or removes a cutset character. */
  lemma UpperKeepsCutset(c: char)
    ensures InCutset(UpperChar(c)) == InCutset(c)
  {
  }

  /** Trimming and upper-casing commute: the same edges are cut either way. */
  lemma TrimUpperCommute(s: string)
    ensures Trim(ToUpper(s)) == ToUpper(Trim(s))
  {
    var l := LeftCut(s);
    LeftCutUpper(s);
    UpperSuffix(s, l);
    var t := s[l..];
    RightEndUpper(t);
    UpperPrefix(t, RightEnd(t));
  }

  lemma UpperSuffix(s: string, n: nat)
    requires n <= |s|
    ensures ToUpper(s)[n..] == ToUpper(s[n..])
  {
  }

  lemma UpperPrefix(s: string, n: nat)
    requires n <= |s|
    ensures ToUpper(s)[..n] == ToUpper(s[..n])
  {
  }

  lemma {:induction false} LeftCutUpper(s: string)
    ensures LeftCut(ToUpper(s)) == LeftCut(s)
    decreases |s|
  {
    if s != [] {
      UpperKeepsCutset(s[0]);
      UpperSuffix(s, 1);
      LeftCutUpper(s[1..]);
    }
  }

  lemma {:induction false} RightEndUpper(s: string)
    ensures RightEnd(ToUpper(s)) == RightEnd(s)
    decreases |s|
  {
    if s != [] {
      UpperKeepsCutset(s[|s| - 1]);
      UpperPrefix(s, |s| - 1);
      RightEndUpper(s[..|s| - 1]);
    }
  }

  /** A non-empty run without whitespace is a single field. */
  lemma FieldsOfWord(w: string)
    requires w != [] && NoSpace(w)
    ensures Fields(w) == [w]
  {
    WordLenOfWord(w);
    assert w[..|w|] == w;
    assert w[|w|..] == [];
  }

  lemma {:induction false} WordLenOfWord(w: string)
    requires NoSpace(w)
    ensures WordLen(w) == |w|
    decreases |w|
  {
    if w != [] {
      assert NoSpace(w[1..]) by {
        forall k | 0 <= k < |w[1..]| ensures !IsSpace(w[1..][k]) {
          assert w[1..][k] == w[k + 1];
        }
      }
      WordLenOfWord(w[1..]);
    }
  }

  /**
   * Tokenising two pieces separately is the same as tokenising their concatenation
   * whenever the first piece is empty or ends in whitespace: no word straddles the joint.
   */
  lemma {:induction false} FieldsAppend(a: string, b: string)
    requires a == [] || IsSpace(a[|a| - 1])
    ensures Fields(a + b) == Fields(a) + Fields(b)
    decreases |a|
  {
    if a == [] {
      assert a + b == b;
    } else if IsSpace(a[0]) {
      FieldsAppend(a[1..], b);
      FieldsAppendSpace(a, b);
    } else {
      var n := WordLen(a);
      assert n < |a|;
      FieldsAppend(a[n..], b);
      FieldsAppendWord(a, b, n);
    }
  }

  /** The step of `FieldsAppend` over a leading space, given the result for the rest. */
  lemma FieldsAppendSpace(a: string, b: string)
    requires a != [] && IsSpace(a[0])
    requires Fields(a[1..] + b) == Fields(a[1..]) + Fields(b)
    ensures Fields(a + b) == Fields(a) + Fields(b)
  {
    SliceConcat(a, b, 1);
  }

  lemma SliceConcat<T>(a: seq<T>, b: seq<T>, n: nat)
    requires n <= |a|
    ensures (a + b)[..n] == a[..n] && (a + b)[n..] == a[n..] + b
    ensures n < |a| ==> (a + b)[n] == a[n]
  {
  }

  /** The step of `FieldsAppend` over a leading word of length `n`, given the result for the rest. */
  lemma FieldsAppendWord(a: string, b: string, n: nat)
    requires a != [] && !IsSpace(a[0]) && n == WordLen(a) && n < |a|
    requires Fields(a[n..] + b) == Fields(a[n..]) + Fields(b)
    ensures Fields(a + b) == Fields(a) + Fields(b)
  {
    var w := a[..n];
    assert Fields(a + b) == [w] + Fields(a[n..] + b) by {
      WordLenPrefix(a, b, n);
      SliceConcat(a, b, n);
      FieldsWordStep(a + b, n);
    }
    assert Fields(a) == [w] + Fields(a[n..]) by {
      FieldsWordStep(a, n);
    }
    ConsAppend(w, Fields(a[n..]), Fields(b));
  }

  lemma ConsAppend<T>(x: T, p: seq<T>, q: seq<T>)
    ensures [x] + (p + q) == ([x] + p) + q
  {
  }

  lemma FieldsWordStep(s: string, n: nat)
    requires s != [] && !IsSpace(s[0]) && n == WordLen(s)
    ensures Fields(s) == [s[..n]] + Fields(s[n..])
  {
  }

  lemma WordLenPrefix(a: string, b: string, n: nat)
    requires n == WordLen(a) && n < |a|
    ensures WordLen(a + b) == n
  {
    assert forall k :: 0 <= k <= n ==> (a + b)[k] == a[k];
  }

  // ---------------------------------------------------------------------------
  // The fields of words laid out between whitespace gaps
  // ---------------------------------------------------------------------------

  /** `gaps[0] + ws[0] + gaps[1] + ... + ws[n-1] + gaps[n]`. */
  function Layout(ws: seq<string>, gaps: seq<string>): (s: string)
    requires |gaps| == |ws| + 1
    decreases |ws|
  {
    if ws == [] then gaps[0] else gaps[0] + ws[0] + Layout(ws[1..], gaps[1..])
  }

  /** Non-empty space-free words, all-space gaps, and a non-empty gap between any two words. */
  predicate WellSpaced(ws: seq<string>, gaps: seq<string>)
  {
    |gaps| == |ws| + 1
    && (forall i :: 0 <= i < |ws| ==> ws[i] != [] && NoSpace(ws[i]))
    && (forall j :: 0 <= j < |gaps| ==> AllSpace(gaps[j]))
    && (forall j :: 0 < j < |ws| ==> gaps[j] != [])
  }

  /** Splitting a well-spaced layout gives back exactly its words: `Fields` inverts `Layout`. */
  lemma {:induction false} FieldsOfLayout(ws: seq<string>, gaps: seq<string>)
    requires WellSpaced(ws, gaps)
    ensures Fields(Layout(ws, gaps)) == ws
    decreases |ws|
  {
    if ws == [] {
      assert Fields(gaps[0]) == [];
    } else {
      var rest := Layout(ws[1..], gaps[1..]);
      WellSpacedTail(ws, gaps);
      FieldsOfLayout(ws[1..], gaps[1..]);
      LayoutStartsWithSpace(ws[1..], gaps[1..]);
      FieldsWordThen(ws[0], rest);
      FieldsAfterSpaces(gaps[0], ws[0] + rest);
      assert Layout(ws, gaps) == gaps[0] + (ws[0] + rest);
    }
  }

  /** Dropping the first word and the first gap keeps a layout well spaced. */
  lemma WellSpacedTail(ws: seq<string>, gaps: seq<string>)
    requires WellSpaced(ws, gaps) && ws != []
    ensures WellSpaced(ws[1..], gaps[1..])
    ensures ws[0] != [] && NoSpace(ws[0]) && AllSpace(gaps[0])
    ensures ws[1..] == [] || gaps[1..][0] != []
  {
    assert forall i :: 0 <= i < |ws[1..]| ==> ws[1..][i] == ws[i + 1];
    assert forall j :: 0 <= j < |gaps[1..]| ==> gaps[1..][j] == gaps[j + 1];
  }

  /** A layout that holds no word, or starts with a non-empty gap, is empty or starts with whitespace. */
  lemma LayoutStartsWithSpace(ws: seq<string>, gaps: seq<string>)
    requires WellSpaced(ws, gaps) && (ws == [] || gaps[0] != [])
    ensures Layout(ws, gaps) == [] || IsSpace(Layout(ws, gaps)[0])
  {
    if gaps[0] != [] {
      assert Layout(ws, gaps)[0] == gaps[0][0];
    }
  }

  /** Leading whitespace contributes no field. */
  lemma {:induction false} FieldsAfterSpaces(sp: string, t: string)
    requires AllSpace(sp)
    ensures Fields(sp + t) == Fields(t)
    decreases |sp|
  {
    if sp == [] {
      assert sp + t == t;
    } else {
      assert (sp + t)[1..] == sp[1..] + t;
      FieldsAfterSpaces(sp[1..], t);
    }
  }

  /** A word followed by nothing or by whitespace is the first field. */
  lemma FieldsWordThen(w: string, t: string)
    requires w != [] && NoSpace(w)
    requires t == [] || IsSpace(t[0])
    ensures Fields(w + t) == [w] + Fields(t)
  {
    WordLenOfWord(w);
    WordLenThen(w, t);
    assert (w + t)[..|w|] == w;
    assert (w + t)[|w|..] == t;
  }

  lemma {:induction false} WordLenThen(w: string, t: string)
    requires NoSpace(w)
    requires t == [] || IsSpace(t[0])
    ensures WordLen(w + t) == |w|
    decreases |w|
  {
    if w == [] {
      assert w + t == t;
    } else {
      assert (w + t)[1..] == w[1..] + t;
      assert NoSpace(w[1..]) by {
        forall k | 0 <= k < |w[1..]| ensures !IsSpace(w[1..][k]) {
          assert w[1..][k] == w[k + 1];
        }
      }
      WordLenThen(w[1..], t);
    }
  }
}
