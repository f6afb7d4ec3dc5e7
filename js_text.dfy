/** The JavaScript string primitives the core relies on, over `string` (one
    `char` per character): the whitespace of `trim` and of the regular
    expression class `\s`, ASCII case mapping, `trim`, `includes`, `split`
    and `join`. */
module JsText {

  /** ECMAScript WhiteSpace and LineTerminator code points: exactly the set
      that `String.prototype.trim` removes and that `\s` matches. */
  predicate IsSpace(c: char) {
    c == '\t' || c == '\n' || c == '\U{B}' || c == '\U{C}' || c == '\r' || c == ' ' ||
    c == '\U{A0}' || c == '\U{1680}' || ('\U{2000}' <= c <= '\U{200A}') ||
    c == '\U{2028}' || c == '\U{2029}' || c == '\U{202F}' || c == '\U{205F}' ||
    c == '\U{3000}' || c == '\U{FEFF}'
  }

  predicate IsUpper(c: char) { 'A' <= c <= 'Z' }
  predicate IsLower(c: char) { 'a' <= c <= 'z' }
  predicate IsDigit(c: char) { '0' <= c <= '9' }

  /** The regular-expression class `\w`, that is `[A-Za-z0-9_]`. */
  predicate IsWordChar(c: char) { IsUpper(c) || IsLower(c) || IsDigit(c) || c == '_' }

  /** `toLowerCase` of one character (ASCII letters only). */
  function LowerChar(c: char): (d: char)
    ensures !IsUpper(d)
    ensures IsSpace(d) <==> IsSpace(c)
    ensures !IsUpper(c) ==> d == c
  {
    if IsUpper(c) then (c as int + 32) as char else c
  }

  /** `toUpperCase` of one character (ASCII letters only). */
  function UpperChar(c: char): (d: char)
    ensures !IsLower(d)
    ensures !IsLower(c) ==> d == c
  {
    if IsLower(c) then (c as int - 32) as char else c
  }

  /** `s.toLowerCase()`, character by character. */
  function Lower(s: string): (r: string)
    ensures |r| == |s|
    ensures forall i :: 0 <= i < |s| ==> r[i] == LowerChar(s[i])
  {
    seq(|s|, i requires 0 <= i < |s| => LowerChar(s[i]))
  }

  /** A string in which `toLowerCase` changes nothing. */
  predicate IsLowerCase(s: string) {
    forall i :: 0 <= i < |s| ==> !IsUpper(s[i])
  }

  /** `s.charAt(0).toUpperCase() + s.slice(1)`. */
  function Capitalize(s: string): (r: string)
    ensures |r| == |s|
    ensures s != [] ==> r[0] == UpperChar(s[0]) && r[1..] == s[1..]
  {
    if s == [] then [] else [UpperChar(s[0])] + s[1..]
  }

  /** Capitalizing keeps distinct strings distinct when neither starts with an
      upper-case letter. */
  lemma CapitalizeInjective(a: string, b: string)
    requires a != [] && b != [] && !IsUpper(a[0]) && !IsUpper(b[0])
    requires Capitalize(a) == Capitalize(b)
    ensures a == b
  {
    assert Capitalize(a)[0] == Capitalize(b)[0];
    assert a[1..] == Capitalize(a)[1..] == Capitalize(b)[1..] == b[1..];
    assert a == [a[0]] + a[1..] && b == [b[0]] + b[1..];
  }

  /** The number of whitespace characters at the start of `s`. */
  function LeadingSpaces(s: string): (n: nat)
    ensures n <= |s|
    ensures forall i :: 0 <= i < n ==> IsSpace(s[i])
    ensures n < |s| ==> !IsSpace(s[n])
  {
    if s != [] && IsSpace(s[0]) then 1 + LeadingSpaces(s[1..]) else 0
  }

  /** Neither starts nor ends with whitespace. */
  predicate IsTrimmed(s: string) {
    s == [] || (!IsSpace(s[0]) && !IsSpace(s[|s| - 1]))
  }

  /** `s.trim()`: `s` without its leading and trailing whitespace, taken off
      one character at a time. */
  function Trim(s: string): (r: string)
    ensures IsTrimmed(r)
    ensures |r| <= |s|
    decreases |s|
  {
    if s != [] && IsSpace(s[0]) then Trim(s[1..])
    else if s != [] && IsSpace(s[|s| - 1]) then Trim(s[..|s| - 1])
    else s
  }

  /** The trimmed string is the piece of `s` after its leading whitespace,
      and everything after that piece is whitespace. */
  lemma {:induction false} TrimInside(s: string)
    ensures OccursAt(s, Trim(s), LeadingSpaces(s))
    ensures Contains(s, Trim(s))
    ensures forall i :: LeadingSpaces(s) + |Trim(s)| <= i < |s| ==> IsSpace(s[i])
    decreases |s|
  {
    TrimTail(s);
    TrimAt(s);
  }

  /** The trimmed string occurs right after the leading whitespace. */
  lemma {:induction false} TrimAt(s: string)
    ensures OccursAt(s, Trim(s), LeadingSpaces(s))
    decreases |s|
  {
    if s != [] && IsSpace(s[0]) {
      TrimAt(s[1..]);
      TrimAtFront(s);
    } else if s != [] && IsSpace(s[|s| - 1]) {
      TrimAt(s[..|s| - 1]);
      TrimAtBack(s);
    }
  }

  /** The step of `TrimAt` that drops a leading whitespace character. */
  lemma TrimAtFront(s: string)
    requires s != [] && IsSpace(s[0])
    requires OccursAt(s[1..], Trim(s[1..]), LeadingSpaces(s[1..]))
    ensures OccursAt(s, Trim(s), LeadingSpaces(s))
  {
    assert Trim(s) == Trim(s[1..]) && LeadingSpaces(s) == LeadingSpaces(s[1..]) + 1;
    OccursAfterFirst(s, Trim(s[1..]), LeadingSpaces(s[1..]));
  }

  /** An occurrence in `s[1..]` is an occurrence in `s`, one place later. */
  lemma OccursAfterFirst(s: string, t: string, n: int)
    requires s != [] && OccursAt(s[1..], t, n)
    ensures OccursAt(s, t, n + 1)
  {
    assert s[1..][n..n + |t|] == s[n + 1..n + 1 + |t|];
  }

  /** The step of `TrimAt` that drops a trailing whitespace character. */
  lemma TrimAtBack(s: string)
    requires s != [] && !IsSpace(s[0]) && IsSpace(s[|s| - 1])
    requires OccursAt(s[..|s| - 1], Trim(s[..|s| - 1]), LeadingSpaces(s[..|s| - 1]))
    ensures OccursAt(s, Trim(s), LeadingSpaces(s))
  {
    var init := s[..|s| - 1];
    assert Trim(s) == Trim(init) && LeadingSpaces(s) == 0;
    assert LeadingSpaces(init) == 0 by {
      if init != [] { assert init[0] == s[0]; }
    }
    assert init[..|Trim(s)|] == s[..|Trim(s)|];
  }

  /** What follows the trimmed piece of `s` is whitespace. */
  lemma {:induction false} TrimTail(s: string)
    ensures forall i :: LeadingSpaces(s) + |Trim(s)| <= i < |s| ==> IsSpace(s[i])
    decreases |s|
  {
    if s != [] && IsSpace(s[0]) {
      TrimTail(s[1..]);
      assert LeadingSpaces(s) == 1 + LeadingSpaces(s[1..]);
      forall i | LeadingSpaces(s) + |Trim(s)| <= i < |s| ensures IsSpace(s[i]) {
        assert s[i] == s[1..][i - 1];
      }
    } else if s != [] && IsSpace(s[|s| - 1]) {
      var init := s[..|s| - 1];
      TrimTail(init);
      assert LeadingSpaces(s) == 0;
      assert LeadingSpaces(init) == 0 by {
        if init != [] { assert init[0] == s[0]; }
      }
      forall i | |Trim(s)| <= i < |s| - 1 ensures IsSpace(s[i]) {
        assert s[i] == init[i];
      }
    }
  }

  /** Trimming gives the empty string exactly for all-whitespace strings. */
  lemma {:induction false} TrimEmpty(s: string)
    ensures Trim(s) == [] <==> forall i :: 0 <= i < |s| ==> IsSpace(s[i])
    decreases |s|
  {
    if s != [] && IsSpace(s[0]) {
      TrimEmpty(s[1..]);
      assert forall i :: 0 < i < |s| ==> s[i] == s[1..][i - 1];
    } else if s != [] && IsSpace(s[|s| - 1]) {
      TrimEmpty(s[..|s| - 1]);
      assert forall i :: 0 <= i < |s| - 1 ==> s[i] == s[..|s| - 1][i];
    }
  }

  /** Trimming a trimmed string changes nothing. */
  lemma TrimTrimmed(s: string)
    requires IsTrimmed(s)
    ensures Trim(s) == s
  {
  }

  /** `pat` occurs in `text` starting at index `i`. */
  predicate OccursAt(text: string, pat: string, i: int) {
    0 <= i <= |text| - |pat| && text[i..i + |pat|] == pat
  }

  /** `text.includes(pat)`: `pat` occurs in `text` at some position. */
  predicate Contains(text: string, pat: string) {
    exists i | 0 <= i <= |text| - |pat| :: OccursAt(text, pat, i)
  }

  /** A one-character `includes` is membership. */
  lemma ContainsChar(text: string, c: char)
    ensures Contains(text, [c]) <==> c in text
  {
    if c in text {
      var i :| 0 <= i < |text| && text[i] == c;
      assert OccursAt(text, [c], i);
    }
    if Contains(text, [c]) {
      var i :| 0 <= i <= |text| - 1 && OccursAt(text, [c], i);
      assert text[i..i + 1] == [c];
      assert text[i] == c;
    }
  }

  /** The index of the first `c` in `s`. */
  function IndexOf(s: string, c: char): (i: nat)
    requires c in s
    ensures i < |s| && s[i] == c && c !in s[..i]
  {
    if s[0] == c then 0 else
      assert c in s[1..];
      1 + IndexOf(s[1..], c)
  }

  /** `s.split(sep)` for a one-character separator: the pieces between the
      occurrences of `sep`; always at least one piece. */
  function Split(s: string, sep: char): (r: seq<string>)
    ensures |r| >= 1
    decreases |s|
  {
    if sep in s then
      var i := IndexOf(s, sep);
      [s[..i]] + Split(s[i + 1..], sep)
    else
      [s]
  }

  /** No piece of a split holds the separator. */
  lemma {:induction false} SplitPieces(s: string, sep: char)
    ensures forall k :: 0 <= k < |Split(s, sep)| ==> sep !in Split(s, sep)[k]
    decreases |s|
  {
    if sep in s {
      var i := IndexOf(s, sep);
      SplitPieces(s[i + 1..], sep);
      assert Split(s, sep)[1..] == Split(s[i + 1..], sep);
    }
  }

  /** `parts.join(sep)`. */
  function Join(parts: seq<string>, sep: string): string {
    if |parts| == 0 then ""
    else if |parts| == 1 then parts[0]
    else parts[0] + sep + Join(parts[1..], sep)
  }

  /** Joining the pieces of a split with the separator gives back the text. */
  lemma {:induction false} JoinSplit(s: string, sep: char)
    ensures Join(Split(s, sep), [sep]) == s
    decreases |s|
  {
    if sep in s {
      var i := IndexOf(s, sep);
      JoinSplit(s[i + 1..], sep);
      assert Split(s, sep)[1..] == Split(s[i + 1..], sep);
      assert s == s[..i] + [sep] + s[i + 1..];
    }
  }

  /** Splitting a join of separator-free pieces gives back the pieces. */
  lemma {:induction false} SplitJoin(parts: seq<string>, sep: char)
    requires |parts| >= 1
    requires forall k :: 0 <= k < |parts| ==> sep !in parts[k]
    ensures Split(Join(parts, [sep]), sep) == parts
    decreases |parts|
  {
    if |parts| > 1 {
      var j := Join(parts, [sep]);
      var rest := Join(parts[1..], [sep]);
      assert j == parts[0] + [sep] + rest;
      assert j[|parts[0]|] == sep;
      assert j[..|parts[0]|] == parts[0];
      var i := IndexOf(j, sep);
      assert i == |parts[0]| by {
        assert i <= |parts[0]| by {
          assert forall m :: 0 <= m < i ==> j[..i][m] == j[m];
        }
        assert j[i] == sep;
      }
      assert j[..i] == parts[0];
      assert j[i + 1..] == rest;
      SplitJoin(parts[1..], sep);
    }
  }

  /** The index of the first whitespace character of `s` at or after `p`,
      or `|s|`. */
  function NextSpace(s: string, p: nat): (r: nat)
    requires p <= |s|
    ensures p <= r <= |s|
    ensures forall j :: p <= j < r ==> !IsSpace(s[j])
    ensures r < |s| ==> IsSpace(s[r])
    decreases |s| - p
  {
    if p == |s| || IsSpace(s[p]) then p else NextSpace(s, p + 1)
  }

  /** The first non-whitespace position at or after `q`. */
  function SkipSpaces(s: string, q: nat): (r: nat)
    requires q <= |s|
    ensures q <= r <= |s|
    ensures forall j :: q <= j < r ==> IsSpace(s[j])
    ensures r < |s| ==> !IsSpace(s[r])
    decreases |s| - q
  {
    if q < |s| && IsSpace(s[q]) then SkipSpaces(s, q + 1) else q
  }

  /** `s.split(/\s+/)` on the text from position `p` on: the piece up to the
      next whitespace character, then the pieces after the whitespace run
      that starts there. */
  function SplitSpacesFrom(s: string, p: nat): (r: seq<string>)
    requires p <= |s|
    ensures |r| >= 1
    ensures forall k, j :: 0 <= k < |r| && 0 <= j < |r[k]| ==> !IsSpace(r[k][j])
    decreases |s| - p
  {
    var i := NextSpace(s, p);
    assert forall j :: 0 <= j < i - p ==> s[p..i][j] == s[p + j];
    if i == |s| then [s[p..]] else [s[p..i]] + SplitSpacesFrom(s, SkipSpaces(s, i))
  }

  /** `s.split(/\s+/)`: the pieces between maximal runs of whitespace. A
      leading or trailing run gives an empty first or last piece, and the
      empty string gives the single empty piece. */
  function SplitSpaces(s: string): (r: seq<string>)
    ensures |r| >= 1
    ensures forall k, j :: 0 <= k < |r| && 0 <= j < |r[k]| ==> !IsSpace(r[k][j])
  {
    SplitSpacesFrom(s, 0)
  }

  /** Unfolding `SplitSpacesFrom` at the whitespace run `s[i..e]`. */
  lemma SplitSpacesCons(s: string, p: nat, i: nat, e: nat)
    requires p <= |s| && i == NextSpace(s, p) && i < |s| && e == SkipSpaces(s, i)
    ensures i < e
    ensures SplitSpacesFrom(s, p)[0] == s[p..i] && SplitSpacesFrom(s, p)[1..] == SplitSpacesFrom(s, e)
  {
  }

  /** A non-empty run of whitespace. */
  predicate IsSpaceRun(t: string) {
    |t| > 0 && forall j :: 0 <= j < |t| ==> IsSpace(t[j])
  }

  /** The pieces with the given separators between them: `parts[0] +
      seps[0] + parts[1] + ... + parts[|seps|]`. */
  function Weave(parts: seq<string>, seps: seq<string>): string
    requires |parts| == |seps| + 1
    decreases |seps|
  {
    if seps == [] then parts[0] else parts[0] + seps[0] + Weave(parts[1..], seps[1..])
  }

  /** The text before a whitespace run, the run, and a weave of the text
      after it weave the whole text. */
  lemma WeaveStep(s: string, p: nat, i: nat, e: nat, parts: seq<string>, runs: seq<string>)
    requires p <= i < e <= |s| && |parts| == |runs| + 2 && parts[0] == s[p..i]
    requires forall j :: i <= j < e ==> IsSpace(s[j])
    requires forall k :: 0 <= k < |runs| ==> IsSpaceRun(runs[k])
    requires Weave(parts[1..], runs) == s[e..]
    ensures forall k :: 0 <= k < |[s[i..e]] + runs| ==> IsSpaceRun(([s[i..e]] + runs)[k])
    ensures Weave(parts, [s[i..e]] + runs) == s[p..]
  {
    var all := [s[i..e]] + runs;
    assert IsSpaceRun(s[i..e]) by {
      assert forall j :: 0 <= j < e - i ==> s[i..e][j] == s[i + j];
    }
    forall k | 0 <= k < |all| ensures IsSpaceRun(all[k]) {
      if k > 0 { assert all[k] == runs[k - 1]; }
    }
    WeaveCons(s, p, i, e, parts, runs);
  }

  /** A piece, the separator after it and a weave of the text after that
      weave the whole text from the piece on. */
  lemma WeaveCons(s: string, p: nat, i: nat, e: nat, parts: seq<string>, seps: seq<string>)
    requires p <= i <= e <= |s| && |parts| == |seps| + 2 && parts[0] == s[p..i]
    requires Weave(parts[1..], seps) == s[e..]
    ensures Weave(parts, [s[i..e]] + seps) == s[p..]
  {
    var all := [s[i..e]] + seps;
    assert all[0] == s[i..e] && all[1..] == seps;
    assert Weave(parts, all) == s[p..i] + s[i..e] + Weave(parts[1..], seps);
    SliceConcat(s, p, i, e);
  }

  /** Three adjacent slices make up the suffix they cover. */
  lemma SliceConcat(s: string, p: nat, i: nat, e: nat)
    requires p <= i <= e <= |s|
    ensures s[p..i] + s[i..e] + s[e..] == s[p..]
  {
  }

  /** The text from `p` on is its whitespace-split pieces with a non-empty
      whitespace run between each two of them. */
  lemma {:induction false} SplitSpacesFromWeave(s: string, p: nat) returns (runs: seq<string>)
    requires p <= |s|
    ensures |runs| + 1 == |SplitSpacesFrom(s, p)|
    ensures forall k :: 0 <= k < |runs| ==> IsSpaceRun(runs[k])
    ensures Weave(SplitSpacesFrom(s, p), runs) == s[p..]
    decreases |s| - p
  {
    var i := NextSpace(s, p);
    if i == |s| {
      assert SplitSpacesFrom(s, p) == [s[p..]];
      runs := [];
    } else {
      var e := SkipSpaces(s, i);
      SplitSpacesCons(s, p, i, e);
      var rest := SplitSpacesFromWeave(s, e);
      WeaveStep(s, p, i, e, SplitSpacesFrom(s, p), rest);
      runs := [s[i..e]] + rest;
    }
  }

  /** The text is its whitespace-split pieces with a non-empty whitespace
      run between each two of them. As no piece holds whitespace, this
      determines the pieces. */
  lemma SplitSpacesWeave(s: string) returns (runs: seq<string>)
    ensures |runs| + 1 == |SplitSpaces(s)|
    ensures forall k :: 0 <= k < |runs| ==> IsSpaceRun(runs[k])
    ensures Weave(SplitSpaces(s), runs) == s
  {
    runs := SplitSpacesFromWeave(s, 0);
    assert s[0..] == s;
  }

  /** `w` occurs in `s` at `i` as a whole word: preceded and followed by
      whitespace or an end of the text. */
  predicate IsWordAt(s: string, w: string, i: int) {
    OccursAt(s, w, i) && (i == 0 || IsSpace(s[i - 1])) && (i + |w| == |s| || IsSpace(s[i + |w|]))
  }

  /** `w` occurs in `s` as a whole word somewhere. */
  predicate IsWordIn(s: string, w: string) {
    exists i | 0 <= i <= |s| - |w| :: IsWordAt(s, w, i)
  }

  /** Every whitespace-split piece of the text from `p` on occurs in the
      text as a whole word, when `p` starts a word. */
  lemma {:induction false} SplitSpacesFromWords(s: string, p: nat)
    requires p <= |s| && (p == 0 || IsSpace(s[p - 1]))
    ensures forall k :: 0 <= k < |SplitSpacesFrom(s, p)| ==> IsWordIn(s, SplitSpacesFrom(s, p)[k])
    decreases |s| - p
  {
    var r := SplitSpacesFrom(s, p);
    var i := NextSpace(s, p);
    assert r[0] == s[p..i];
    assert IsWordIn(s, r[0]) by {
      FirstWord(s, p);
      assert IsWordAt(s, r[0], p);
    }
    if i < |s| {
      var e := SkipSpaces(s, i);
      SplitSpacesCons(s, p, i, e);
      SplitSpacesFromWords(s, e);
      forall k | 0 < k < |r| ensures IsWordIn(s, r[k]) {
        assert r[k] == SplitSpacesFrom(s, e)[k - 1];
      }
    }
  }

  /** The piece from a word start to the next whitespace is a whole word. */
  lemma FirstWord(s: string, p: nat)
    requires p <= |s| && (p == 0 || IsSpace(s[p - 1]))
    ensures IsWordAt(s, s[p..NextSpace(s, p)], p)
  {
  }

  /** Every whitespace-split piece occurs in the text as a whole word. */
  lemma SplitSpacesWords(s: string)
    ensures forall k :: 0 <= k < |SplitSpaces(s)| ==> IsWordIn(s, SplitSpaces(s)[k])
  {
    SplitSpacesFromWords(s, 0);
  }

  /** Splitting a lower-case string on whitespace gives lower-case pieces. */
  lemma {:induction false} SplitSpacesFromLower(s: string, p: nat)
    requires p <= |s| && IsLowerCase(s)
    ensures forall k :: 0 <= k < |SplitSpacesFrom(s, p)| ==> IsLowerCase(SplitSpacesFrom(s, p)[k])
    decreases |s| - p
  {
    var r := SplitSpacesFrom(s, p);
    var i := NextSpace(s, p);
    assert r[0] == s[p..i];
    assert forall j :: 0 <= j < i - p ==> s[p..i][j] == s[p + j];
    if i < |s| {
      var e := SkipSpaces(s, i);
      SplitSpacesCons(s, p, i, e);
      SplitSpacesFromLower(s, e);
      forall k | 0 < k < |r| ensures IsLowerCase(r[k]) {
        assert r[k] == SplitSpacesFrom(s, e)[k - 1];
      }
    }
  }

  /** Splitting a lower-case string on whitespace gives lower-case pieces. */
  lemma SplitSpacesLower(s: string)
    requires IsLowerCase(s)
    ensures forall k :: 0 <= k < |SplitSpaces(s)| ==> IsLowerCase(SplitSpaces(s)[k])
  {
    SplitSpacesFromLower(s, 0);
  }

  /** From a non-whitespace position of a text that does not end with
      whitespace, every piece is non-empty. */
  lemma {:induction false} SplitSpacesFromNonEmpty(s: string, p: nat)
    requires p < |s| && !IsSpace(s[p]) && !IsSpace(s[|s| - 1])
    ensures forall k :: 0 <= k < |SplitSpacesFrom(s, p)| ==> SplitSpacesFrom(s, p)[k] != []
    decreases |s| - p
  {
    var r := SplitSpacesFrom(s, p);
    var i := NextSpace(s, p);
    assert r[0] == s[p..i] && i > p;
    if i < |s| {
      var e := SkipSpaces(s, i);
      SplitSpacesCons(s, p, i, e);
      SplitSpacesFromNonEmpty(s, e);
      forall k | 0 < k < |r| ensures r[k] != [] {
        assert r[k] == SplitSpacesFrom(s, e)[k - 1];
      }
    }
  }

  /** Splitting a trimmed, non-empty string on whitespace gives only
      non-empty pieces; splitting the empty string gives one empty piece. */
  lemma SplitSpacesTrimmed(s: string)
    requires IsTrimmed(s)
    ensures s == [] ==> SplitSpaces(s) == [""]
    ensures s != [] ==> forall k :: 0 <= k < |SplitSpaces(s)| ==> SplitSpaces(s)[k] != []
  {
    if s != [] {
      SplitSpacesFromNonEmpty(s, 0);
    }
  }
}
