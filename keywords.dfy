/** The keyword index stored with every uploaded resume: the distinct
    lower-cased words of the resume text that are longer than three
    characters and are not common English words, in the order of their
    first occurrence, at most 50 of them. */
module ResumeKeywords {
  import opened Wrappers
  import opened SeqUtil
  import opened JsText

  /** The `commonWords` set. */
  const CommonWords: set<string> := {
    "the", "a", "an", "and", "or", "but", "in", "on", "at", "to", "for", "of",
    "with", "by", "is", "was", "are", "be", "been"
  }

  const MaxKeywords := 50

  /** The words that `filter` keeps. */
  predicate Eligible(w: string) { |w| > 3 && w !in CommonWords }

  /** The index of the first occurrence of `x` in `s`. */
  function Find<T(==)>(s: seq<T>, x: T): (i: nat)
    requires x in s
    ensures i < |s| && s[i] == x && x !in s[..i]
  {
    if s[0] == x then 0 else
      assert x in s[1..];
      1 + Find(s[1..], x)
  }

  /** `[...new Set(s)]`: the elements of `s` in insertion order, each once.
      Built from the left: an element is added when it is not already
      there. */
  function Unique<T(==)>(s: seq<T>): (r: seq<T>)
    ensures |r| <= |s|
    ensures forall i :: 0 <= i < |r| ==> r[i] in s
    ensures forall i :: 0 <= i < |s| ==> s[i] in r
    decreases |s|
  {
    if s == [] then []
    else
      var d := Unique(s[..|s| - 1]);
      assert s == s[..|s| - 1] + [s[|s| - 1]];
      if s[|s| - 1] in d then d else d + [s[|s| - 1]]
  }

  /** The words of the lower-cased text. */
  function Tokens(text: string): seq<string> {
    SplitSpaces(Lower(text))
  }

  /** The eligible words of the text, repetitions included. */
  function EligibleTokens(text: string): seq<string> {
    Filter(Tokens(text), Eligible)
  }

  /** `extractKeywords(text)`; None is a missing text. */
  function Keywords(text: Option<string>): (r: seq<string>)
    ensures |r| <= MaxKeywords
    ensures text.None? || text == Some("") ==> r == []
    ensures text.Some? && text.value != "" ==>
              var u := Unique(EligibleTokens(text.value));
              |r| == (if |u| <= MaxKeywords then |u| else MaxKeywords) && r == u[..|r|]
  {
    if text.None? || text.value == "" then []
    else
      var u := Unique(EligibleTokens(text.value));
      u[..if |u| <= MaxKeywords then |u| else MaxKeywords]
  }

  // ---------------------------------------------------------------------
  // Unique
  // ---------------------------------------------------------------------

  /** `Unique` repeats nothing. */
  lemma {:induction false} UniqueDistinct<T>(s: seq<T>)
    ensures Distinct(Unique(s))
    decreases |s|
  {
    if s != [] {
      UniqueDistinct(s[..|s| - 1]);
    }
  }

  /** The first occurrence of an element of `s` does not move when
      something is appended. */
  lemma {:induction false} FindAppend<T>(s: seq<T>, x: T, y: T)
    requires y in s
    ensures Find(s + [x], y) == Find(s, y)
    decreases |s|
  {
    assert (s + [x])[0] == s[0];
    if s[0] != y {
      assert (s + [x])[1..] == s[1..] + [x];
      assert y in s[1..];
      FindAppend(s[1..], x, y);
    }
  }

  /** `Unique` lists the elements in the order of their first occurrence
      in `s`. */
  lemma {:induction false} UniqueOrder<T>(s: seq<T>)
    ensures forall i, j :: 0 <= i < j < |Unique(s)| ==>
              Find(s, Unique(s)[i]) < Find(s, Unique(s)[j])
    decreases |s|
  {
    if s != [] {
      var init, last := s[..|s| - 1], s[|s| - 1];
      UniqueOrder(init);
      assert s == init + [last];
      UniqueOrderStep(init, last);
    }
  }

  /** The step of `UniqueOrder` that appends one element. */
  lemma UniqueOrderStep<T>(init: seq<T>, last: T)
    requires forall i, j :: 0 <= i < j < |Unique(init)| ==>
               Find(init, Unique(init)[i]) < Find(init, Unique(init)[j])
    ensures var s := init + [last];
            forall i, j :: 0 <= i < j < |Unique(s)| ==> Find(s, Unique(s)[i]) < Find(s, Unique(s)[j])
  {
    var s, d := init + [last], Unique(init);
    assert s[..|s| - 1] == init && s[|s| - 1] == last;
    assert Unique(s) == if last in d then d else d + [last];
    forall i | 0 <= i < |d| ensures Find(s, d[i]) == Find(init, d[i]) {
      FindAppend(init, last, d[i]);
    }
    if last !in d {
      FindLast(init, last);
      var r := Unique(s);
      forall i, j | 0 <= i < j < |r| ensures Find(s, r[i]) < Find(s, r[j]) {
        assert r[i] == d[i];
        if j < |d| { assert r[j] == d[j]; }
      }
    }
  }

  /** An element appended to a sequence without it first occurs at the end. */
  lemma FindLast<T>(init: seq<T>, last: T)
    requires last !in init
    ensures Find(init + [last], last) == |init|
  {
    var s := init + [last];
    assert s[|init|] == last && s[..|init|] == init;
  }

  // ---------------------------------------------------------------------
  // Properties of extractKeywords
  // ---------------------------------------------------------------------

  /** No keyword repeats, and the keywords follow the order in which the
      words first occur in the lower-cased text. */
  lemma KeywordsInFirstOccurrenceOrder(text: string)
    requires text != ""
    ensures Distinct(Keywords(Some(text)))
    ensures forall k :: 0 <= k < |Keywords(Some(text))| ==> Keywords(Some(text))[k] in Tokens(text)
    ensures forall i, j :: 0 <= i < j < |Keywords(Some(text))| ==>
              Find(Tokens(text), Keywords(Some(text))[i]) < Find(Tokens(text), Keywords(Some(text))[j])
  {
    var e := EligibleTokens(text);
    var u := Unique(e);
    var r := Keywords(Some(text));
    assert r == u[..|r|];
    UniqueDistinct(e);
    UniqueOrder(e);
    forall k | 0 <= k < |r| ensures r[k] in Tokens(text) {
      assert r[k] == u[k];
    }
    FindFilter(Tokens(text), Eligible);
    forall i, j | 0 <= i < j < |r| ensures Find(Tokens(text), r[i]) < Find(Tokens(text), r[j]) {
      assert r[i] == u[i] && r[j] == u[j];
      assert Find(e, u[i]) < Find(e, u[j]);
    }
  }

  /** Filtering keeps the order of first occurrences of the elements it
      keeps. */
  lemma {:induction false} FindFilter<T>(s: seq<T>, p: T -> bool)
    ensures forall x, y ::
              (x in s && y in s && x in Filter(s, p) && y in Filter(s, p) &&
               Find(Filter(s, p), x) < Find(Filter(s, p), y)) ==> Find(s, x) < Find(s, y)
    decreases |s|
  {
    if s != [] {
      FindFilter(s[1..], p);
      var f, rest := Filter(s, p), Filter(s[1..], p);
      forall x, y | x in s && y in s && x in f && y in f && Find(f, x) < Find(f, y)
        ensures Find(s, x) < Find(s, y)
      {
        if p(s[0]) {
          assert f == [s[0]] + rest;
          assert f[0] == s[0] && f[1..] == rest;
          assert y != s[0];
          if x != s[0] {
            assert x in s[1..] && y in s[1..];
            assert x in rest && y in rest;
          }
        } else {
          assert f == rest;
          assert x != s[0] && y != s[0];
          assert x in s[1..] && y in s[1..];
        }
      }
    }
  }

  /** Every keyword is a word of more than three characters, lower-case,
      without whitespace, and not a common word. */
  lemma KeywordsAreEligible(text: string)
    ensures forall k :: 0 <= k < |Keywords(Some(text))| ==>
              var w := Keywords(Some(text))[k];
              |w| > 3 && w !in CommonWords && IsLowerCase(w) && (forall j :: 0 <= j < |w| ==> !IsSpace(w[j]))
  {
    if text != "" {
      var e := EligibleTokens(text);
      var u := Unique(e);
      var r := Keywords(Some(text));
      SplitSpacesLower(Lower(text));
      forall k | 0 <= k < |r|
        ensures |r[k]| > 3 && r[k] !in CommonWords && IsLowerCase(r[k]) &&
                (forall j :: 0 <= j < |r[k]| ==> !IsSpace(r[k][j]))
      {
        assert r[k] == u[k];
        assert r[k] in e;
      }
    }
  }

  /** Every keyword occurs in the lower-cased text as a whole word, with
      whitespace or an end of the text on either side. */
  lemma KeywordsAreWords(text: string)
    ensures forall k :: 0 <= k < |Keywords(Some(text))| ==> IsWordIn(Lower(text), Keywords(Some(text))[k])
  {
    if text != "" {
      var t, r := Tokens(text), Keywords(Some(text));
      KeywordsInFirstOccurrenceOrder(text);
      SplitSpacesWords(Lower(text));
      forall k | 0 <= k < |r| ensures IsWordIn(Lower(text), r[k]) {
        var j :| 0 <= j < |t| && t[j] == r[k];
      }
    }
  }

  /** When the text has at most 50 distinct eligible words, every one of
      them is a keyword. */
  lemma KeywordsComplete(text: string)
    requires text != ""
    requires |set w | w in EligibleTokens(text)| <= MaxKeywords
    ensures forall w :: w in Tokens(text) && Eligible(w) ==> w in Keywords(Some(text))
  {
    var e := EligibleTokens(text);
    var u := Unique(e);
    UniqueDistinct(e);
    DistinctCardinality(u);
    assert (set w | w in u) == (set w | w in e);
    assert Keywords(Some(text)) == u;
  }

  /** There are as many keywords as distinct eligible words, up to 50. */
  lemma KeywordsCount(text: string)
    requires text != ""
    ensures var n := |set w | w in EligibleTokens(text)|;
            |Keywords(Some(text))| == if n <= MaxKeywords then n else MaxKeywords
  {
    var e := EligibleTokens(text);
    var u := Unique(e);
    UniqueDistinct(e);
    DistinctCardinality(u);
    assert (set w | w in u) == (set w | w in e);
  }

  /** When there are more than 50 distinct eligible words, the keywords are
      the 50 whose first occurrence comes first: every eligible word left
      out first occurs after every keyword. */
  lemma KeywordsFirstFifty(text: string)
    requires text != ""
    ensures forall w, k ::
              (w in Tokens(text) && Eligible(w) && w !in Keywords(Some(text)) && 0 <= k < |Keywords(Some(text))|) ==>
              Find(Tokens(text), Keywords(Some(text))[k]) < Find(Tokens(text), w)
  {
    var t := Tokens(text);
    var e := EligibleTokens(text);
    var u := Unique(e);
    var r := Keywords(Some(text));
    UniqueOrder(e);
    FindFilter(t, Eligible);
    forall w, k | w in t && Eligible(w) && w !in r && 0 <= k < |r|
      ensures Find(t, r[k]) < Find(t, w)
    {
      assert w in e;
      var m :| 0 <= m < |u| && u[m] == w;
      assert m >= |r|;
      assert r[k] == u[k];
      assert Find(e, u[k]) < Find(e, u[m]);
    }
  }

  /** A sequence without repetitions has as many elements as its set. */
  lemma {:induction false} DistinctCardinality<T>(s: seq<T>)
    requires Distinct(s)
    ensures |set x | x in s| == |s|
    decreases |s|
  {
    if s != [] {
      var init := s[..|s| - 1];
      assert Distinct(init);
      DistinctCardinality(init);
      assert s == init + [s[|s| - 1]];
      assert (set x | x in s) == (set x | x in init) + {s[|s| - 1]};
      assert s[|s| - 1] !in (set x | x in init);
    }
  }
}
