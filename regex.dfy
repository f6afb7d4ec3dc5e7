/** A backtracking matcher for the regular expressions that the resume parser
    applies with `String.prototype.match` (no flags): sequences of greedy
    quantified character classes and greedy optional groups, tried at each
    start position from the left, alternatives in JavaScript's backtracking
    order. */
module Regex {
  import opened Wrappers
  import opened JsText

  /** The character classes the parser's patterns use. */
  datatype CharClass =
    | Char(c: char)   // one literal character
    | Word            // \w
    | Digit           // \d
    | WordDotDash     // [\w.-]
    | WordDash        // [\w-]
    | DashDotSpace    // [-.\s]

  predicate InClass(c: char, k: CharClass) {
    match k
    case Char(d) => c == d
    case Word => IsWordChar(c)
    case Digit => IsDigit(c)
    case WordDotDash => IsWordChar(c) || c == '.' || c == '-'
    case WordDash => IsWordChar(c) || c == '-'
    case DashDotSpace => c == '-' || c == '.' || IsSpace(c)
  }

  /** One element of a pattern: `Repeat(k, lo, hi)` is the greedy quantifier
      `k{lo,hi}` (`hi == None`: no upper bound); `Group(body)` is the greedy
      optional group `(?:body)?`. */
  datatype Node = Repeat(cls: CharClass, lo: nat, hi: Option<nat>) | Group(body: seq<Node>)

  function Size(ns: seq<Node>): nat
    decreases ns
  {
    if ns == [] then 0 else NodeSize(ns[0]) + Size(ns[1..])
  }

  function NodeSize(n: Node): nat
    decreases n
  {
    match n
    case Repeat(_, _, _) => 1
    case Group(body) => 1 + Size(body)
  }

  lemma {:induction false} SizeConcat(a: seq<Node>, b: seq<Node>)
    ensures Size(a + b) == Size(a) + Size(b)
    decreases |a|
  {
    if a == [] {
      assert a + b == b;
    } else {
      assert (a + b)[0] == a[0];
      assert (a + b)[1..] == a[1..] + b;
      SizeConcat(a[1..], b);
      assert Size(a + b) == NodeSize(a[0]) + Size(a[1..] + b);
    }
  }

  /** The literal string `p` as a pattern. */
  function Literal(p: string): (ns: seq<Node>)
    ensures |ns| == |p|
  {
    if p == [] then [] else [Repeat(Char(p[0]), 1, Some(1))] + Literal(p[1..])
  }

  /** The pattern `ns` matched at `pos` of `s`: the end of the first match in
      backtracking order, or None when no match starts at `pos`. */
  function MatchAt(ns: seq<Node>, s: string, pos: nat): (r: Option<nat>)
    requires pos <= |s|
    ensures r.Some? ==> pos <= r.value <= |s|
    decreases Size(ns), |s| - pos
  {
    if ns == [] then Some(pos)
    else
      assert Size(ns) == NodeSize(ns[0]) + Size(ns[1..]);
      match ns[0]
      case Group(body) =>
        SizeConcat(body, ns[1..]);
        var taken := MatchAt(body + ns[1..], s, pos);
        if taken.Some? then taken else MatchAt(ns[1..], s, pos)
      case Repeat(k, lo, hi) =>
        var next := [Repeat(k, if lo > 0 then lo - 1 else 0, if hi.Some? && hi.value > 0 then Some(hi.value - 1) else hi)];
        SizeConcat(next, ns[1..]);
        var more := if hi != Some(0) && pos < |s| && InClass(s[pos], k)
                    then MatchAt(next + ns[1..], s, pos + 1) else None;
        if more.Some? then more
        else if lo == 0 then MatchAt(ns[1..], s, pos)
        else None
  }

  /** The first start position, from `start` on, where `ns` matches, with the
      end of that match. */
  function SearchFrom(ns: seq<Node>, s: string, start: nat): (r: Option<(nat, nat)>)
    requires start <= |s|
    ensures r.Some? ==> start <= r.value.0 <= r.value.1 <= |s| && MatchAt(ns, s, r.value.0) == Some(r.value.1)
    ensures r.Some? ==> forall j :: start <= j < r.value.0 ==> MatchAt(ns, s, j).None?
    ensures r.None? ==> forall j :: start <= j <= |s| ==> MatchAt(ns, s, j).None?
    decreases |s| - start
  {
    match MatchAt(ns, s, start)
    case Some(e) => Some((start, e))
    case None => if start == |s| then None else SearchFrom(ns, s, start + 1)
  }

  /** `const m = s.match(re); m ? m[0] : ''`: the leftmost match, or ''. */
  function FirstMatch(ns: seq<Node>, s: string): (r: string)
    ensures r == [] || Contains(s, r)
  {
    match SearchFrom(ns, s, 0)
    case Some((i, e)) => assert OccursAt(s, s[i..e], i); s[i..e]
    case None => ""
  }

  /** A match of a quantified class consumes at least `lo` characters of the
      class, and the rest of the pattern matches after them. */
  lemma {:induction false} RepeatSound(k: CharClass, lo: nat, hi: Option<nat>, rest: seq<Node>, s: string, pos: nat)
    requires pos <= |s|
    requires MatchAt([Repeat(k, lo, hi)] + rest, s, pos).Some?
    ensures exists m :: pos + lo <= m <= |s| && (forall j :: pos <= j < m ==> InClass(s[j], k)) &&
                        MatchAt(rest, s, m) == MatchAt([Repeat(k, lo, hi)] + rest, s, pos)
    decreases |s| - pos
  {
    var ns := [Repeat(k, lo, hi)] + rest;
    assert ns[0] == Repeat(k, lo, hi) && ns[1..] == rest;
    var next := [Repeat(k, if lo > 0 then lo - 1 else 0, if hi.Some? && hi.value > 0 then Some(hi.value - 1) else hi)];
    var more := if hi != Some(0) && pos < |s| && InClass(s[pos], k)
                then MatchAt(next + rest, s, pos + 1) else None;
    if more.Some? {
      RepeatSound(k, if lo > 0 then lo - 1 else 0, if hi.Some? && hi.value > 0 then Some(hi.value - 1) else hi, rest, s, pos + 1);
      var m :| pos + 1 + (if lo > 0 then lo - 1 else 0) <= m <= |s| && (forall j :: pos + 1 <= j < m ==> InClass(s[j], k)) &&
               MatchAt(rest, s, m) == more;
      assert pos + lo <= m;
    } else {
      assert MatchAt(rest, s, pos) == MatchAt(ns, s, pos);
    }
  }

  /** A match of a literal followed by more pattern starts with that literal. */
  lemma {:induction false} LiteralSound(p: string, rest: seq<Node>, s: string, pos: nat)
    requires pos <= |s|
    requires MatchAt(Literal(p) + rest, s, pos).Some?
    ensures pos + |p| <= |s| && s[pos..pos + |p|] == p
    ensures MatchAt(rest, s, pos + |p|) == MatchAt(Literal(p) + rest, s, pos)
    decreases |p|
  {
    if p == [] {
      assert Literal(p) + rest == rest;
    } else {
      var tail := Literal(p[1..]) + rest;
      assert Literal(p) + rest == [Repeat(Char(p[0]), 1, Some(1))] + tail;
      MatchAtOnce(Char(p[0]), tail, s, pos);
      LiteralSound(p[1..], rest, s, pos + 1);
      assert s[pos] == p[0];
      assert s[pos..pos + |p|] == [s[pos]] + s[pos + 1..pos + |p|];
    }
  }

  /** A single literal character either matches and hands over to the rest of
      the pattern at the next position, or the whole match fails. */
  lemma MatchAtOnce(k: CharClass, rest: seq<Node>, s: string, pos: nat)
    requires pos <= |s|
    ensures MatchAt([Repeat(k, 1, Some(1))] + rest, s, pos) ==
            if pos < |s| && InClass(s[pos], k) then MatchAt(rest, s, pos + 1) else None
  {
    var ns := [Repeat(k, 1, Some(1))] + rest;
    assert ns[0] == Repeat(k, 1, Some(1)) && ns[1..] == rest;
    if pos < |s| && InClass(s[pos], k) {
      var done := [Repeat(k, 0, Some(0))] + rest;
      assert done[0] == Repeat(k, 0, Some(0)) && done[1..] == rest;
      assert MatchAt(done, s, pos + 1) == MatchAt(rest, s, pos + 1);
    }
  }
}
