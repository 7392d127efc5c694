/** Typed wiki-links: the parser, and its round trip with a printer. */
module Links {
  import opened Options
  import opened Text

  /** The fixed vocabulary of relations. */
  datatype Rel = Relates | DependsOn | Supersedes | Contradicts {
    function Name(): string {
      match this
      case Relates => "relates"
      case DependsOn => "depends-on"
      case Supersedes => "supersedes"
      case Contradicts => "contradicts"
    }
  }

  /** A parsed link: its relation and its normalized target. */
  datatype Link = Link(rel: Rel, raw: string)

  function RelOf(name: string): Option<Rel> {
    if name == Relates.Name() then Some(Relates)
    else if name == DependsOn.Name() then Some(DependsOn)
    else if name == Supersedes.Name() then Some(Supersedes)
    else if name == Contradicts.Name() then Some(Contradicts)
    else None
  }

  /** The least position at or after `from` where `pat` occurs. */
  function Find(s: string, pat: string, from: nat): (r: Option<nat>)
    ensures r.Some? ==> from <= r.value && r.value + |pat| <= |s|
    decreases |s| - from
  {
    if from + |pat| > |s| then None
    else if pat <= s[from..] then Some(from)
    else if from == |s| then None
    else Find(s, pat, from + 1)
  }

  /** The end of the code span at the front of the text, if a span is there. */
  function SpanEnd(s: string, tick: string): (end: Option<nat>)
    requires tick != []
    ensures end.Some? ==> 0 < end.value <= |s|
  {
    if tick <= s && Find(s, tick, |tick|).Some? then Some(Find(s, tick, |tick|).value + |tick|) else None
  }

  /** Removes the code spans opened and closed by `tick`; an unclosed tick stays as it is. */
  function StripCode(s: string, tick: string): string
    requires tick != []
    decreases |s|
  {
    if s == [] then []
    else if SpanEnd(s, tick).Some? then StripCode(s[SpanEnd(s, tick).value..], tick)
    else [s[0]] + StripCode(s[1..], tick)
  }

  const FENCE := "```"
  const TICK := "`"

  predicate IsBracket(c: char) { c == '[' || c == ']' }

  /** Length of the longest bracket-free prefix. */
  function RunLength(s: string): (n: nat)
    ensures n <= |s|
  {
    if s == [] || IsBracket(s[0]) then 0 else 1 + RunLength(s[1..])
  }

  /** The submatches of \[\[([^\[\]]+)\]\], leftmost first and not overlapping. */
  function Matches(s: string): seq<string>
    decreases |s|
  {
    if s == [] then []
    else if "[[" <= s then
      var n := RunLength(s[2..]);
      if n > 0 && "]]" <= s[2 + n..] then [s[2..2 + n]] + Matches(s[n + 4..])
      else Matches(s[1..])
    else Matches(s[1..])
  }

  function SplitRel(inner: string): Link {
    var cut := Find(inner, "::", 0);
    if cut.Some? && RelOf(Lower(Trim(inner[..cut.value], GoBlank))).Some? then
      Link(RelOf(Lower(Trim(inner[..cut.value], GoBlank))).value, NormalizeLink(inner[cut.value + 2..]))
    else
      Link(Relates, NormalizeLink(inner))
  }

  function Inners(content: string): seq<string> {
    Matches(Prose(content))
  }

  /** First occurrences, in order, of the links with a non-empty target. */
  function Firsts(inners: seq<string>, seen: set<Link>): seq<Link> {
    if inners == [] then []
    else
      var l := SplitRel(inners[0]);
      if l.raw == "" || l in seen then Firsts(inners[1..], seen)
      else [l] + Firsts(inners[1..], seen + {l})
  }

  function Parse(content: string): seq<Link> {
    Firsts(Inners(content), {})
  }

  /** parseLinks: the loop over the matches, with its `seen` set. */
  method ParseLinks(content: string) returns (links: seq<Link>)
    ensures links == Parse(content)
  {
    var inners := Inners(content);
    var seen: set<Link> := {};
    links := [];
    for i := 0 to |inners|
      invariant links + Firsts(inners[i..], seen) == Parse(content)
    {
      var l := SplitRel(inners[i]);
      assert inners[i..][1..] == inners[i + 1..];
      if l.raw == "" || l in seen {
        continue;
      }
      seen := seen + {l};
      links := links + [l];
    }
  }

  // ---- what is code, and what is a link ----

  predicate Occurs(s: string, pat: string, p: int) {
    0 <= p && p + |pat| <= |s| && s[p..p + |pat|] == pat
  }

  lemma {:induction false} FindIsLeast(s: string, pat: string, from: nat)
    requires pat != []
    ensures Find(s, pat, from).Some? ==> Occurs(s, pat, Find(s, pat, from).value)
    ensures forall p | from <= p && Occurs(s, pat, p) :: Find(s, pat, from).Some? && Find(s, pat, from).value <= p
    decreases |s| - from
  {
    if from + |pat| <= |s| {
      assert pat <= s[from..] <==> s[from..from + |pat|] == pat by {
        assert s[from..][..|pat|] == s[from..from + |pat|];
      }
      if !(pat <= s[from..]) {
        FindIsLeast(s, pat, from + 1);
      }
    }
  }

  /** The first place of `pat`, from `from` on. */
  ghost predicate FirstAt(s: string, pat: string, from: int, p: int) {
    from <= p && Occurs(s, pat, p) && forall i | from <= i < p :: !Occurs(s, pat, i)
  }

  lemma FindIsFirst(s: string, pat: string, from: nat, p: int)
    requires pat != [] && FirstAt(s, pat, from, p)
    ensures Find(s, pat, from) == Some(p)
  {
    FindIsLeast(s, pat, from);
  }

  lemma FirstShift(s: string, pat: string, from: int, p: int)
    requires s != [] && from >= 1 && FirstAt(s, pat, from, p)
    ensures FirstAt(s[1..], pat, from - 1, p - 1)
  {
    OccursShift(s, pat, p - 1);
    forall i | from - 1 <= i < p - 1 ensures !Occurs(s[1..], pat, i) {
      OccursShift(s, pat, i);
    }
  }

  lemma PrefixOccurs(s: string, pat: string)
    ensures pat <= s <==> Occurs(s, pat, 0)
  {
  }

  /** What StripCode removes: the first span from a tick to the next one after it, then likewise
      in the rest. */
  lemma {:induction false} StripCodeLaw(s: string, tick: string, p: nat, q: nat)
    requires tick != [] && FirstAt(s, tick, 0, p) && FirstAt(s, tick, p + |tick|, q)
    ensures StripCode(s, tick) == s[..p] + StripCode(s[q + |tick|..], tick)
    decreases |s|
  {
    if p == 0 {
      StripSpan(s, tick, q);
      NothingFirst(s, StripCode(s[q + |tick|..], tick));
    } else {
      NoneBefore(s, tick, p);
      StripOn(s, tick);
      FirstShift(s, tick, 1, p);
      FirstShift(s, tick, p + |tick|, q);
      StripCodeLaw(s[1..], tick, p - 1, q - 1);
      DropAgain(s, q + |tick|);
      Rejoin(s, p, StripCode(s, tick), StripCode(s[1..], tick), StripCode(s[q + |tick|..], tick));
    }
  }

  lemma NoneBefore(s: string, tick: string, p: nat)
    requires p >= 1 && FirstAt(s, tick, 0, p)
    ensures FirstAt(s, tick, 1, p) && s != [] && !(tick <= s)
  {
    PrefixOccurs(s, tick);
  }

  lemma DropAgain(s: string, k: nat)
    requires 1 <= k <= |s|
    ensures s[1..][k - 1..] == s[k..]
  {
  }

  lemma NothingFirst(s: string, t: string)
    ensures s[..0] + t == t
  {
  }

  lemma Rejoin(s: string, p: nat, whole: string, later: string, tail: string)
    requires 1 <= p <= |s| && whole == [s[0]] + later && later == s[1..][..p - 1] + tail
    ensures whole == s[..p] + tail
  {
  }

  lemma StripSpan(s: string, tick: string, q: nat)
    requires tick != [] && Occurs(s, tick, 0) && FirstAt(s, tick, |tick|, q)
    ensures StripCode(s, tick) == StripCode(s[q + |tick|..], tick)
  {
    PrefixOccurs(s, tick);
    FindIsFirst(s, tick, |tick|, q);
    assert SpanEnd(s, tick) == Some(q + |tick|);
  }

  lemma StripOn(s: string, tick: string)
    requires tick != [] && s != [] && !(tick <= s)
    ensures StripCode(s, tick) == [s[0]] + StripCode(s[1..], tick)
  {
  }

  lemma OccursShift(s: string, pat: string, i: int)
    requires s != []
    ensures Occurs(s[1..], pat, i) <==> i >= 0 && Occurs(s, pat, i + 1)
  {
    if i >= 0 && i + 1 + |pat| <= |s| {
      assert s[1..][i..i + |pat|] == s[i + 1..i + 1 + |pat|];
    }
  }

  /** Text in which no tick follows another stays as it is. */
  lemma {:induction false} UnpairedStays(s: string, tick: string)
    requires tick != []
    requires forall p, q | Occurs(s, tick, p) && Occurs(s, tick, q) :: q < p + |tick|
    ensures StripCode(s, tick) == s
    decreases |s|
  {
    if s != [] {
      FindIsLeast(s, tick, |tick|);
      assert tick <= s ==> Occurs(s, tick, 0);
      forall p, q | Occurs(s[1..], tick, p) && Occurs(s[1..], tick, q) ensures q < p + |tick| {
        OccursShift(s, tick, p);
        OccursShift(s, tick, q);
      }
      UnpairedStays(s[1..], tick);
    }
  }

  /** `[[x]]` stands at `p`, with something free of brackets inside. */
  predicate LinkAt(s: string, p: int, x: string) {
    && x != "" && (forall i | 0 <= i < |x| :: !IsBracket(x[i]))
    && Occurs(s, "[[" + x + "]]", p)
  }

  lemma {:induction false} RunLengthFacts(s: string)
    ensures forall i | 0 <= i < RunLength(s) :: !IsBracket(s[i])
    ensures RunLength(s) < |s| ==> IsBracket(s[RunLength(s)])
  {
    if s != [] && !IsBracket(s[0]) {
      RunLengthFacts(s[1..]);
    }
  }

  /** `[[x]]` read character by character. */
  ghost predicate LinkReads(s: string, p: nat, x: string) {
    && p + |x| + 4 <= |s| && s[p] == s[p + 1] == '[' && s[p + 2 + |x|] == s[p + 3 + |x|] == ']'
    && forall i | p + 2 <= i < p + 2 + |x| :: s[i] == x[i - p - 2]
  }

  lemma LinkChars(s: string, p: nat, x: string)
    ensures Occurs(s, "[[" + x + "]]", p) <==> LinkReads(s, p, x)
  {
    var w := "[[" + x + "]]";
    if Occurs(s, w, p) {
      var v := s[p..p + |w|];
      assert forall i | p <= i < p + |w| :: s[i] == v[i - p];
      assert w[2 + |x|] == ']' && w[3 + |x|] == ']';
    }
    if LinkReads(s, p, x) {
      forall i | 0 <= i < |w| ensures s[p..p + |w|][i] == w[i] {
        assert s[p..p + |w|][i] == s[p + i];
      }
    }
  }

  lemma LinkShift(s: string, k: nat, p: int, x: string)
    requires k <= |s| && p >= k
    ensures LinkAt(s[k..], p - k, x) <==> LinkAt(s, p, x)
  {
    var w := "[[" + x + "]]";
    if p + |w| <= |s| {
      assert s[k..][p - k..p - k + |w|] == s[p..p + |w|];
    }
  }

  predicate StartsLink(s: string) {
    "[[" <= s && RunLength(s[2..]) > 0 && "]]" <= s[2 + RunLength(s[2..])..]
  }

  /** At the front of the text, a link is what Matches takes. */
  lemma FrontLink(s: string, x: string)
    ensures LinkAt(s, 0, x) <==> StartsLink(s) && x == s[2..2 + RunLength(s[2..])]
  {
    if StartsLink(s) {
      FrontIsLink(s);
    }
    if LinkAt(s, 0, x) {
      FrontRun(s, x);
    }
  }

  lemma FrontIsLink(s: string)
    requires StartsLink(s)
    ensures LinkAt(s, 0, s[2..2 + RunLength(s[2..])])
  {
    var n := RunLength(s[2..]);
    var x := s[2..2 + n];
    RunLengthFacts(s[2..]);
    LinkChars(s, 0, x);
    assert s[2 + n..][0] == s[2 + n] && s[2 + n..][1] == s[3 + n];
    forall i | 0 <= i < |x| ensures !IsBracket(x[i]) {
      assert x[i] == s[2..][i];
    }
  }

  lemma FrontRun(s: string, x: string)
    requires LinkAt(s, 0, x)
    ensures StartsLink(s) && x == s[2..2 + RunLength(s[2..])]
  {
    LinkChars(s, 0, x);
    var t := s[2..];
    var n := RunLength(t);
    RunLengthFacts(t);
    forall i | 0 <= i < |x| ensures t[i] == x[i] && !IsBracket(t[i]) {
      assert t[i] == s[i + 2];
    }
    assert t[|x|] == s[2 + |x|];
    assert n == |x|;
    assert s[2 + n..][0] == s[2 + n] && s[2 + n..][1] == s[3 + n];
  }

  /** No link starts inside another. */
  lemma LinksApart(s: string, k: nat, x: string, p: nat, y: string)
    requires LinkAt(s, k, x) && LinkAt(s, p, y) && k < p
    ensures k + |x| + 4 <= p
  {
    LinkChars(s, k, x);
    LinkChars(s, p, y);
    ReadsApart(s, k, x, p);
  }

  lemma ReadsApart(s: string, k: nat, x: string, p: nat)
    requires LinkReads(s, k, x) && x != "" && forall i | 0 <= i < |x| :: !IsBracket(x[i])
    requires k < p && p + 1 < |s| && s[p] == s[p + 1] == '['
    ensures k + |x| + 4 <= p
  {
    forall i | k + 2 <= i < k + 2 + |x| ensures !IsBracket(s[i]) {
      assert s[i] == x[i - k - 2];
    }
  }

  /** The first link that starts at `k` or after is `[[x]]`, at `p`. */
  ghost predicate NextLink(s: string, k: nat, p: nat, x: string) {
    k <= p && LinkAt(s, p, x) && forall q, y | LinkAt(s, q, y) && k <= q :: p <= q
  }

  /** What the links of the text hold, each the first one from the end of the one before. */
  ghost predicate ReadsOff(s: string, k: nat, inners: seq<string>)
    decreases |inners|
  {
    if inners == [] then forall q, y | LinkAt(s, q, y) :: q < k
    else exists p: nat :: NextLink(s, k, p, inners[0]) && ReadsOff(s, p + |inners[0]| + 4, inners[1..])
  }

  lemma SkipOne(s: string, k: nat, inners: seq<string>)
    requires ReadsOff(s, k + 1, inners) && forall y :: !LinkAt(s, k, y)
    ensures ReadsOff(s, k, inners)
  {
    if inners != [] {
      var p: nat :| NextLink(s, k + 1, p, inners[0]) && ReadsOff(s, p + |inners[0]| + 4, inners[1..]);
      assert NextLink(s, k, p, inners[0]);
    }
  }

  lemma {:induction false} MatchesReadOff(s: string, k: nat)
    requires k <= |s|
    ensures ReadsOff(s, k, Matches(s[k..]))
    decreases |s| - k
  {
    var t := s[k..];
    if StartsLink(t) {
      var x := FirstMatch(s, k);
      MatchesReadOff(s, k + |x| + 4);
      ReadsOffCons(s, k, x, Matches(s[k + |x| + 4..]));
    } else if k < |s| {
      NoMatch(s, k);
      MatchesReadOff(s, k + 1);
      SkipOne(s, k, Matches(s[k + 1..]));
    } else {
      assert t == [];
      ReadsOffEnd(s);
    }
  }

  lemma ReadsOffCons(s: string, k: nat, x: string, rest: seq<string>)
    requires LinkAt(s, k, x) && ReadsOff(s, k + |x| + 4, rest)
    ensures ReadsOff(s, k, [x] + rest)
  {
    var inners := [x] + rest;
    assert NextLink(s, k, k, inners[0]);
    assert inners[1..] == rest;
  }

  lemma ReadsOffEnd(s: string)
    ensures ReadsOff(s, |s|, [])
  {
    forall q, x | LinkAt(s, q, x) ensures q < |s| {
      assert Occurs(s, "[[" + x + "]]", q);
    }
  }

  lemma FirstMatch(s: string, k: nat) returns (x: string)
    requires k <= |s| && StartsLink(s[k..])
    ensures LinkAt(s, k, x) && k + |x| + 4 <= |s| && Matches(s[k..]) == [x] + Matches(s[k + |x| + 4..])
  {
    var t := s[k..];
    x := t[2..2 + RunLength(t[2..])];
    FrontLink(t, x);
    LinkShift(s, k, k, x);
    assert t[|x| + 4..] == s[k + |x| + 4..];
  }

  lemma NoMatch(s: string, k: nat)
    requires k < |s| && !StartsLink(s[k..])
    ensures Matches(s[k..]) == Matches(s[k + 1..]) && forall x :: !LinkAt(s, k, x)
  {
    var t := s[k..];
    forall x ensures !LinkAt(s, k, x) {
      FrontLink(t, x);
      LinkShift(s, k, k, x);
    }
    assert t[1..] == s[k + 1..];
  }

  lemma {:induction false} EveryLinkListed(s: string, k: nat, inners: seq<string>, p: nat, x: string)
    requires ReadsOff(s, k, inners) && LinkAt(s, p, x) && k <= p
    ensures x in inners
    decreases |inners|
  {
    var q: nat :| NextLink(s, k, q, inners[0]) && ReadsOff(s, q + |inners[0]| + 4, inners[1..]);
    if q < p {
      LinksApart(s, q, inners[0], p, x);
      EveryLinkListed(s, q + |inners[0]| + 4, inners[1..], p, x);
    } else {
      SameLink(s, p, x, inners[0]);
    }
  }

  lemma SameLink(s: string, p: nat, x: string, y: string)
    requires LinkAt(s, p, x) && LinkAt(s, p, y)
    ensures x == y
  {
    LinkShift(s, p, p, x);
    LinkShift(s, p, p, y);
    FrontLink(s[p..], x);
    FrontLink(s[p..], y);
  }

  lemma {:induction false} ListedIsLink(s: string, k: nat, inners: seq<string>, x: string) returns (p: nat)
    requires ReadsOff(s, k, inners) && x in inners
    ensures LinkAt(s, p, x)
    decreases |inners|
  {
    var q: nat :| NextLink(s, k, q, inners[0]) && ReadsOff(s, q + |inners[0]| + 4, inners[1..]);
    if x == inners[0] {
      p := q;
    } else {
      p := ListedIsLink(s, q + |inners[0]| + 4, inners[1..], x);
    }
  }

  /** Matches reads the links of the text off in their order, and misses none. */
  lemma MatchesAreLinks(s: string)
    ensures ReadsOff(s, 0, Matches(s))
    ensures forall x :: x in Matches(s) <==> exists p: nat :: LinkAt(s, p, x)
  {
    assert s[0..] == s;
    MatchesReadOff(s, 0);
    forall x ensures x in Matches(s) <==> exists p: nat :: LinkAt(s, p, x) {
      if x in Matches(s) {
        var p := ListedIsLink(s, 0, Matches(s), x);
      }
      if p: nat :| LinkAt(s, p, x) {
        EveryLinkListed(s, 0, Matches(s), p, x);
      }
    }
  }

  /** The text without its code. */
  function Prose(content: string): string {
    StripCode(StripCode(content, FENCE), TICK)
  }

  // ---- what the parser returns on arbitrary text ----

  ghost predicate Distinct<T>(s: seq<T>) {
    forall i, j | 0 <= i < j < |s| :: s[i] != s[j]
  }

  predicate IsTarget(l: Link) {
    l.raw != "" && IsNorm(l.raw)
  }

  lemma SplitRelIsNorm(inner: string)
    ensures IsNorm(SplitRel(inner).raw)
  {
    NormalizeLinkIsNorm(inner);
    var cut := Find(inner, "::", 0);
    if cut.Some? {
      NormalizeLinkIsNorm(inner[cut.value + 2..]);
    }
  }

  lemma {:induction false} FirstsFacts(inners: seq<string>, seen: set<Link>)
    ensures Distinct(Firsts(inners, seen))
    ensures forall l :: l in Firsts(inners, seen) <==>
      l !in seen && l.raw != "" && exists k :: 0 <= k < |inners| && SplitRel(inners[k]) == l
    ensures forall l | l in Firsts(inners, seen) :: IsTarget(l)
  {
    if inners != [] {
      var l0 := SplitRel(inners[0]);
      var added := !(l0.raw == "" || l0 in seen);
      var seen' := if added then seen + {l0} else seen;
      FirstsFacts(inners[1..], seen');
      SplitRelIsNorm(inners[0]);
      forall l
        ensures l in Firsts(inners, seen) <==>
          l !in seen && l.raw != "" && exists k :: 0 <= k < |inners| && SplitRel(inners[k]) == l
      {
        if l !in seen && l.raw != "" {
          if k :| 0 <= k < |inners| && SplitRel(inners[k]) == l {
            if k > 0 {
              assert SplitRel(inners[1..][k - 1]) == l;
            }
          }
          if l in Firsts(inners[1..], seen') {
            var k :| 0 <= k < |inners[1..]| && SplitRel(inners[1..][k]) == l;
            assert SplitRel(inners[k + 1]) == l;
          }
        }
      }
    }
  }

  /** The parser returns every linked target once, and only normalized, non-empty targets. */
  lemma ParseIsExact(content: string)
    ensures Distinct(Parse(content))
    ensures forall l :: l in Parse(content) <==>
      l.raw != "" && exists k :: 0 <= k < |Inners(content)| && SplitRel(Inners(content)[k]) == l
    ensures forall l | l in Parse(content) :: IsTarget(l)
  {
    FirstsFacts(Inners(content), {});
  }

  /** A link is parsed exactly when the prose of the text has a bracketed link that splits into it
      and names something. */
  lemma ParseFindsLinks(content: string, l: Link)
    ensures l in Parse(content) <==>
      l.raw != "" && exists p: nat, x :: LinkAt(Prose(content), p, x) && SplitRel(x) == l
  {
    ParseIsExact(content);
    MatchesAreLinks(Prose(content));
    var inners := Inners(content);
    if l in Parse(content) {
      var i :| 0 <= i < |inners| && SplitRel(inners[i]) == l;
      assert inners[i] in inners;
      var p: nat :| LinkAt(Prose(content), p, inners[i]);
    }
    if p: nat, x :| LinkAt(Prose(content), p, x) && SplitRel(x) == l {
      assert x in inners;
    }
  }

  // ---- code is not parsed ----

  /** Nothing before the first tick is touched. */
  lemma {:induction false} StripPrefix(a: string, b: string, tick: string)
    requires tick != [] && forall i | 0 <= i < |a| :: !Occurs(a + b, tick, i)
    ensures StripCode(a + b, tick) == a + StripCode(b, tick)
    decreases |a|
  {
    if a == [] {
      assert a + b == b;
    } else {
      PrefixOccurs(a + b, tick);
      StripOn(a + b, tick);
      assert (a + b)[1..] == a[1..] + b;
      forall i | 0 <= i < |a[1..]| ensures !Occurs(a[1..] + b, tick, i) {
        OccursShift(a + b, tick, i);
      }
      StripPrefix(a[1..], b, tick);
    }
  }

  lemma NoTickStarts(a: string, b: string, tick: string)
    requires tick != [] && tick[0] == '`' && '`' !in a
    ensures forall i | 0 <= i < |a| :: !Occurs(a + b, tick, i)
  {
    forall i | 0 <= i < |a| ensures !Occurs(a + b, tick, i) {
      OccursChar(a + b, tick, i);
      assert (a + b)[i] == a[i];
    }
  }

  lemma OccursAt(s: string, pat: string, i: int, j: nat)
    requires j < |pat|
    ensures Occurs(s, pat, i) ==> s[i + j] == pat[j]
  {
    if Occurs(s, pat, i) {
      assert s[i..i + |pat|][j] == s[i + j];
    }
  }

  lemma OccursChar(s: string, pat: string, i: int)
    requires pat != []
    ensures Occurs(s, pat, i) ==> s[i] == pat[0]
  {
    OccursAt(s, pat, i, 0);
  }

  /** A span after text without ticks is cut out. */
  lemma SpanCut(a: string, code: string, b: string, tick: string)
    requires tick != [] && tick[0] == '`' && '`' !in a && FirstAt(code + tick + b, tick, 0, |code|)
    ensures StripCode(a + tick + code + tick + b, tick) == a + StripCode(b, tick)
  {
    var s := tick + (code + tick + b);
    assert a + tick + code + tick + b == a + s;
    NoTickStarts(a, s, tick);
    StripPrefix(a, s, tick);
    SpanFirst(code, b, tick);
  }

  lemma SpanFirst(code: string, b: string, tick: string)
    requires tick != [] && FirstAt(code + tick + b, tick, 0, |code|)
    ensures StripCode(tick + (code + tick + b), tick) == StripCode(b, tick)
  {
    var s, q := tick + (code + tick + b), |tick| + |code|;
    SpanSlices(code, b, tick);
    FirstBehind(tick, code + tick + b, tick, |code|);
    SpanThen(s, tick, q, b);
  }

  lemma SpanThen(s: string, tick: string, q: nat, b: string)
    requires tick != [] && Occurs(s, tick, 0) && FirstAt(s, tick, |tick|, q) && s[q + |tick|..] == b
    ensures StripCode(s, tick) == StripCode(b, tick)
  {
    StripSpan(s, tick, q);
  }

  lemma SpanSlices(code: string, b: string, tick: string)
    ensures var s := tick + (code + tick + b); Occurs(s, tick, 0) && s[|tick| + |code| + |tick|..] == b
  {
    var s := tick + (code + tick + b);
    assert s[0..|tick|] == tick;
  }

  lemma FirstBehind(u: string, v: string, pat: string, p: int)
    requires FirstAt(v, pat, 0, p)
    ensures FirstAt(u + v, pat, |u|, |u| + p)
  {
    OccursBehind(u, v, pat, p);
    forall i | |u| <= i < |u| + p ensures !Occurs(u + v, pat, i) {
      OccursBehind(u, v, pat, i - |u|);
    }
  }

  lemma OccursBehind(u: string, v: string, pat: string, i: int)
    requires i >= 0
    ensures Occurs(u + v, pat, |u| + i) <==> Occurs(v, pat, i)
  {
    if i + |pat| <= |v| {
      assert (u + v)[|u| + i..|u| + i + |pat|] == v[i..i + |pat|];
    }
  }

  /** A fenced block is not parsed, whatever it holds: the text means what it means without it. */
  lemma FenceIsCode(a: string, code: string, b: string)
    requires '`' !in a && FirstAt(code + "```" + b, "```", 0, |code|)
    ensures Parse(a + "```" + code + "```" + b) == Parse(a + b)
  {
    SpanCut(a, code, b, FENCE);
    NoTickStarts(a, b, FENCE);
    StripPrefix(a, b, FENCE);
  }

  /** Nor is text between single ticks, unless the ticks are part of a longer row of ticks. */
  lemma TickIsCode(a: string, code: string, b: string)
    requires '`' !in a && '`' !in code && (b == "" || b[0] != '`')
    ensures Parse(a + "`" + code + "`" + b) == Parse(a + b)
  {
    var u, rest := a + "`" + code + "`", StripCode(b, FENCE);
    NoFenceStarts(a, code, b);
    StripPrefix(u, b, FENCE);
    FirstTick(code, rest);
    SpanCut(a, code, rest, TICK);
    NoTickStarts(a, b, FENCE);
    StripPrefix(a, b, FENCE);
    NoTickStarts(a, rest, TICK);
    StripPrefix(a, rest, TICK);
    assert a + "`" + code + "`" + rest == u + rest;
  }

  lemma NoFenceStarts(a: string, code: string, b: string)
    requires '`' !in a && '`' !in code && (b == "" || b[0] != '`')
    ensures var u := a + "`" + code + "`"; forall i | 0 <= i < |u| :: !Occurs(u + b, "```", i)
  {
    var u := a + "`" + code + "`";
    forall i | 0 <= i < |u| ensures !Occurs(u + b, "```", i) {
      if i + 3 <= |u + b| {
        var w := (u + b)[i..i + 3];
        assert w[0] == (u + b)[i] && w[1] == (u + b)[i + 1] && w[2] == (u + b)[i + 2];
        NotThreeTicks(a, code, b, i);
      }
    }
  }

  lemma NotThreeTicks(a: string, code: string, b: string, i: nat)
    requires '`' !in a && '`' !in code && (b == "" || b[0] != '`')
    requires i < |a| + |code| + 2 && i + 3 <= |a| + |code| + 2 + |b|
    ensures var s := a + "`" + code + "`" + b; s[i] != '`' || s[i + 1] != '`' || s[i + 2] != '`'
  {
    var s := a + "`" + code + "`" + b;
    if i < |a| {
      assert s[i] == a[i];
    } else if i == |a| && code != "" {
      assert s[i + 1] == code[0];
    } else if i == |a| {
      assert s[i + 2] == b[0];
    } else if i < |a| + 1 + |code| {
      assert s[i] == code[i - |a| - 1];
    } else {
      assert s[i + 1] == b[0];
    }
  }

  lemma FirstTick(code: string, b: string)
    requires '`' !in code
    ensures FirstAt(code + "`" + b, "`", 0, |code|)
  {
    var s := code + "`" + b;
    assert s[|code|..|code| + 1] == "`";
    assert s == code + ("`" + b);
    NoTickStarts(code, "`" + b, "`");
  }

  /** Fences go before ticks: a lone tick in a block does not pair with one after it. */
  lemma FencesBeforeTicks(t: string)
    requires '`' !in t
    ensures Parse("```x`y```" + (t + "`")) == Parse(t)
  {
    var b := t + "`";
    LoneTickBlock(b);
    FenceIsCode("", "x`y", b);
    assert "" + "```" + "x`y" + "```" == "```x`y```";
    assert "" + b == b;
    LoneTickStays(t);
  }

  lemma LoneTickBlock(b: string)
    ensures FirstAt("x`y" + "```" + b, "```", 0, 3)
  {
    var s := "x`y" + "```" + b;
    assert s[3..6] == "```";
    assert s[0..3][0] == 'x' && s[1..4][1] == 'y' && s[2..5][0] == 'y';
  }

  /** A tick without another is no code, and no part of a link. */
  lemma LoneTickStays(t: string)
    requires '`' !in t
    ensures Parse(t + "`") == Parse(t)
  {
    var s := t + "`";
    forall p ensures Occurs(s, FENCE, p) ==> p == |t| {
      OccursChar(s, FENCE, p);
    }
    forall p ensures Occurs(s, TICK, p) ==> p == |t| {
      OccursChar(s, TICK, p);
    }
    UnpairedStays(s, FENCE);
    UnpairedStays(s, TICK);
    NoTickNoStrip(t, FENCE);
    NoTickNoStrip(t, TICK);
    MatchesBefore(t, "`");
  }

  /** One more character at the end, no bracket, makes and breaks no link. */
  lemma {:induction false} MatchesBefore(t: string, z: string)
    requires |z| == 1 && !IsBracket(z[0])
    ensures Matches(t + z) == Matches(t)
    decreases |t|
  {
    if t == [] {
      assert (t + z)[1..] == [];
      assert t + z == z;
    } else {
      StartsBefore(t, z);
      if StartsLink(t) {
        var n := RunLength(t[2..]);
        assert (t + z)[2..2 + n] == t[2..2 + n] && (t + z)[n + 4..] == t[n + 4..] + z;
        MatchesBefore(t[n + 4..], z);
      } else {
        assert (t + z)[1..] == t[1..] + z;
        MatchesBefore(t[1..], z);
      }
    }
  }

  lemma StartsBefore(t: string, z: string)
    requires t != [] && |z| == 1 && !IsBracket(z[0])
    ensures StartsLink(t + z) <==> StartsLink(t)
    ensures StartsLink(t) ==> RunLength((t + z)[2..]) == RunLength(t[2..])
  {
    if StartsLink(t) {
      FrontIsLink(t);
      LinkAtBefore(t, z, t[2..2 + RunLength(t[2..])]);
      FrontLink(t + z, t[2..2 + RunLength(t[2..])]);
    }
    if StartsLink(t + z) {
      FrontIsLink(t + z);
      LinkAtBefore(t, z, (t + z)[2..2 + RunLength((t + z)[2..])]);
      FrontLink(t, (t + z)[2..2 + RunLength((t + z)[2..])]);
    }
  }

  lemma LinkAtBefore(t: string, z: string, x: string)
    requires |z| == 1 && !IsBracket(z[0])
    ensures LinkAt(t + z, 0, x) <==> LinkAt(t, 0, x)
  {
    LinkChars(t, 0, x);
    LinkChars(t + z, 0, x);
  }

  // ---- the relation of a link ----

  /** What stands before the first `::` names the relation, in any case and spacing; any other name,
      or none, makes a plain link of the whole text. */
  lemma SplitRelCases(inner: string, p: nat, rel: Rel)
    requires FirstAt(inner, "::", 0, p)
    ensures GoFold(inner[..p]) == rel.Name() ==> SplitRel(inner) == Link(rel, NormalizeLink(inner[p + 2..]))
    ensures (forall r: Rel :: GoFold(inner[..p]) != r.Name()) ==> SplitRel(inner) == Link(Relates, NormalizeLink(inner))
  {
    FindIsFirst(inner, "::", 0, p);
    RelNameNorm(rel);
  }

  lemma NoRelation(inner: string)
    requires forall p :: !Occurs(inner, "::", p)
    ensures SplitRel(inner) == Link(Relates, NormalizeLink(inner))
  {
    FindIsLeast(inner, "::", 0);
  }

  /** The vocabulary. */
  lemma RelNames()
    ensures Relates.Name() == "relates" && DependsOn.Name() == "depends-on"
    ensures Supersedes.Name() == "supersedes" && Contradicts.Name() == "contradicts"
  {
  }

  /** `l` first appears, among the links still wanted, at or before position `k`. */
  ghost predicate MentionedBefore(inners: seq<string>, l: Link, k: nat) {
    exists j :: 0 <= j < k && j < |inners| && SplitRel(inners[j]) == l
  }

  lemma HeadIsFirst(inners: seq<string>, seen: set<Link>)
    requires inners != []
    ensures var l0 := SplitRel(inners[0]);
      if l0.raw == "" || l0 in seen then l0 !in Firsts(inners, seen)
      else l0 !in Firsts(inners[1..], seen + {l0})
  {
    FirstsFacts(inners, seen);
    FirstsFacts(inners[1..], seen + {SplitRel(inners[0])});
  }

  /** Links come out in the order of their first mention. */
  lemma {:induction false} FirstsInOrder(inners: seq<string>, seen: set<Link>, i: nat, j: nat, k: nat)
    requires i < j < |Firsts(inners, seen)| && k < |inners|
    requires SplitRel(inners[k]) == Firsts(inners, seen)[j]
    ensures MentionedBefore(inners, Firsts(inners, seen)[i], k)
    decreases |inners|, 1
  {
    var l0 := SplitRel(inners[0]);
    HeadIsFirst(inners, seen);
    if l0.raw == "" || l0 in seen {
      assert Firsts(inners, seen)[0..] == Firsts(inners[1..], seen);
      assert Firsts(inners, seen)[j] in Firsts(inners, seen);
      MentionedLater(inners, seen, seen, i, j, k, 0);
    } else if i == 0 {
      assert k > 0 by {
        assert Firsts(inners, seen)[j] == Firsts(inners[1..], seen + {l0})[j - 1];
      }
      assert SplitRel(inners[0]) == Firsts(inners, seen)[0];
    } else {
      assert k > 0 by {
        assert Firsts(inners, seen)[j] == Firsts(inners[1..], seen + {l0})[j - 1];
      }
      MentionedLater(inners, seen, seen + {l0}, i, j, k, 1);
    }
  }

  lemma {:induction false} MentionedLater(inners: seq<string>, seen: set<Link>, seen': set<Link>, i: nat, j: nat,
                                          k: nat, off: nat)
    requires inners != [] && i < j < |Firsts(inners, seen)| && 0 < k < |inners| && off <= i
    requires SplitRel(inners[k]) == Firsts(inners, seen)[j]
    requires Firsts(inners, seen)[off..] == Firsts(inners[1..], seen') && off <= |Firsts(inners, seen)|
    ensures MentionedBefore(inners, Firsts(inners, seen)[i], k)
    decreases |inners|, 0
  {
    var all, rest := Firsts(inners, seen), Firsts(inners[1..], seen');
    assert rest[i - off] == all[i] && rest[j - off] == all[j] && inners[1..][k - 1] == inners[k];
    FirstsInOrder(inners[1..], seen', i - off, j - off, k - 1);
    var m :| 0 <= m < k - 1 && m < |inners[1..]| && SplitRel(inners[1..][m]) == all[i];
    assert SplitRel(inners[m + 1]) == all[i];
  }

  // ---- printing, and the round trip ----

  function Body(l: Link): string {
    l.rel.Name() + "::" + l.raw
  }

  function Print(links: seq<Link>, seps: seq<string>): string
    requires |seps| == |links| + 1
  {
    if links == [] then seps[0]
    else seps[0] + ("[[" + (Body(links[0]) + ("]]" + Print(links[1..], seps[1..]))))
  }

  /** Text without brackets or backticks. */
  predicate Inert(s: string) {
    forall i | 0 <= i < |s| :: !IsBracket(s[i]) && s[i] != '`'
  }

  predicate Printable(l: Link) {
    IsTarget(l) && Inert(l.raw)
  }

  lemma {:induction false} NoTickNoStrip(s: string, tick: string)
    requires tick != [] && tick[0] == '`' && '`' !in s
    ensures StripCode(s, tick) == s
  {
    if s != [] {
      assert s[0] != '`';
      NoTickNoStrip(s[1..], tick);
    }
  }

  lemma {:induction false} PrintHasNoTick(links: seq<Link>, seps: seq<string>)
    requires |seps| == |links| + 1
    requires forall i | 0 <= i < |seps| :: '`' !in seps[i]
    requires forall i | 0 <= i < |links| :: '`' !in links[i].raw
    ensures '`' !in Print(links, seps)
  {
    if links != [] {
      assert '`' !in links[0].rel.Name();
      PrintHasNoTick(links[1..], seps[1..]);
    }
  }

  lemma {:induction false} MatchesSkip(sep: string, rest: string)
    requires Inert(sep)
    ensures Matches(sep + rest) == Matches(rest)
  {
    if sep == [] {
      assert sep + rest == rest;
    } else {
      assert !IsBracket(sep[0]) && (sep + rest)[0] == sep[0];
      assert (sep + rest)[1..] == sep[1..] + rest;
      MatchesSkip(sep[1..], rest);
    }
  }

  lemma {:induction false} RunLengthOf(body: string, rest: string)
    requires Inert(body)
    ensures RunLength(body + ("]]" + rest)) == |body|
  {
    var s := body + ("]]" + rest);
    if body == [] {
      assert s[0] == ']';
    } else {
      assert s[0] == body[0] && s[1..] == body[1..] + ("]]" + rest);
      RunLengthOf(body[1..], rest);
    }
  }

  lemma LinkSlices(body: string, rest: string)
    ensures var s := "[[" + (body + ("]]" + rest));
      && "[[" <= s && s[2..] == body + ("]]" + rest) && s[2..2 + |body|] == body
      && s[2 + |body|..] == "]]" + rest && s[|body| + 4..] == rest
  {
  }

  lemma MatchesLink(body: string, rest: string)
    requires body != [] && Inert(body)
    ensures Matches("[[" + (body + ("]]" + rest))) == [body] + Matches(rest)
  {
    LinkSlices(body, rest);
    RunLengthOf(body, rest);
  }

  lemma {:induction false} FindColons(rel: Rel, raw: string, from: nat)
    requires from <= |rel.Name()|
    ensures Find(rel.Name() + "::" + raw, "::", from) == Some(|rel.Name()|)
    decreases |rel.Name()| - from
  {
    var s := rel.Name() + "::" + raw;
    if from == |rel.Name()| {
      assert s[from..] == "::" + raw;
    } else {
      assert rel.Name()[from] != ':' && s[from..][0] == rel.Name()[from];
      FindColons(rel, raw, from + 1);
    }
  }

  lemma RelNameInert(rel: Rel)
    ensures Inert(rel.Name()) && Lower(rel.Name()) == rel.Name()
  {
    match rel
    case Relates =>
    case DependsOn =>
    case Supersedes =>
    case Contradicts =>
  }

  lemma RelNameNorm(rel: Rel)
    ensures Lower(Trim(rel.Name(), GoBlank)) == rel.Name() && RelOf(rel.Name()) == Some(rel)
  {
    RelNameInert(rel);
    var name := rel.Name();
    assert TrimLeft(name, GoBlank) == name && TrimRight(name, GoBlank) == name;
  }

  lemma SplitBody(l: Link)
    requires Printable(l)
    ensures SplitRel(Body(l)) == l
  {
    FindColons(l.rel, l.raw, 0);
    RelNameNorm(l.rel);
    NormFixed(l.raw);
    assert Body(l)[..|l.rel.Name()|] == l.rel.Name();
    assert Body(l)[|l.rel.Name()| + 2..] == l.raw;
  }

  lemma BodyInert(l: Link)
    requires Printable(l)
    ensures Inert(Body(l)) && Body(l) != []
  {
    RelNameInert(l.rel);
  }

  function Bodies(links: seq<Link>): (bodies: seq<string>)
    ensures |bodies| == |links|
  {
    if links == [] then [] else [Body(links[0])] + Bodies(links[1..])
  }

  lemma {:induction false} MatchesPrint(links: seq<Link>, seps: seq<string>)
    requires |seps| == |links| + 1
    requires forall s | s in seps :: Inert(s)
    requires forall l | l in links :: Printable(l)
    ensures Matches(Print(links, seps)) == Bodies(links)
  {
    assert Inert(seps[0]);
    if links == [] {
      assert seps[0] + "" == seps[0];
      MatchesSkip(seps[0], "");
    } else {
      var body, rest := Body(links[0]), Print(links[1..], seps[1..]);
      assert Printable(links[0]);
      BodyInert(links[0]);
      MatchesSkip(seps[0], "[[" + (body + ("]]" + rest)));
      MatchesLink(body, rest);
      MatchesPrint(links[1..], seps[1..]);
    }
  }

  lemma {:induction false} FirstsOfBodies(links: seq<Link>, seen: set<Link>)
    requires Distinct(links)
    requires forall l | l in links :: Printable(l) && l !in seen
    ensures Firsts(Bodies(links), seen) == links
  {
    if links != [] {
      assert Printable(links[0]);
      SplitBody(links[0]);
      FirstsOfBodies(links[1..], seen + {links[0]});
    }
  }

  /** Printing distinct links between inert separators and parsing gives the links back. */
  lemma ParsePrint(links: seq<Link>, seps: seq<string>)
    requires |seps| == |links| + 1 && Distinct(links)
    requires forall s | s in seps :: Inert(s)
    requires forall l | l in links :: Printable(l)
    ensures Parse(Print(links, seps)) == links
  {
    forall i | 0 <= i < |seps| ensures '`' !in seps[i] {
      assert Inert(seps[i]);
    }
    forall i | 0 <= i < |links| ensures '`' !in links[i].raw {
      assert Printable(links[i]);
    }
    PrintHasNoTick(links, seps);
    NoTickNoStrip(Print(links, seps), FENCE);
    NoTickNoStrip(Print(links, seps), TICK);
    MatchesPrint(links, seps);
    FirstsOfBodies(links, {});
  }

  /** A text that is one bare link. */
  lemma ParseBare(x: string)
    requires Inert(x) && ':' !in x && NormalizeLink(x) != ""
    ensures Parse("[[" + x + "]]") == [Link(Relates, NormalizeLink(x))]
  {
    assert NormalizeLink("") == "";
    assert "[[" + x + "]]" == "[[" + (x + ("]]" + ""));
    BareLink(x);
    forall p ensures !Occurs(x, "::", p) {
      OccursChar(x, "::", p);
    }
    NoRelation(x);
    FirstsOfOne(x);
  }

  lemma BareLink(x: string)
    requires x != "" && Inert(x)
    ensures Inners("[[" + (x + ("]]" + ""))) == [x]
  {
    var s := "[[" + (x + ("]]" + ""));
    assert '`' !in s;
    NoTickNoStrip(s, FENCE);
    NoTickNoStrip(s, TICK);
    MatchesLink(x, "");
  }

  lemma FirstsOfOne(x: string)
    requires SplitRel(x).raw != ""
    ensures Firsts([x], {}) == [SplitRel(x)]
  {
    assert [x][1..] == [];
  }
}
