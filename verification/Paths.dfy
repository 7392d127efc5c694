/** Dotted taxonomy paths as Go's strings.Split and strings.Join see them. */
module Paths {
  import opened Scopes

  function Split(s: string): (segs: seq<string>)
    ensures |segs| >= 1
  {
    if s == [] then [[]]
    else if s[0] == '.' then [[]] + Split(s[1..])
    else
      var rest := Split(s[1..]);
      [[s[0]] + rest[0]] + rest[1..]
  }

  function Join(segs: seq<string>): string
    requires |segs| >= 1
  {
    if |segs| == 1 then segs[0] else segs[0] + "." + Join(segs[1..])
  }

  /** strings.Count(s, "."). */
  function Dots(s: string): nat {
    if s == [] then 0 else (if s[0] == '.' then 1 else 0) + Dots(s[1..])
  }

  ghost predicate Dotless(segs: seq<string>) {
    forall i | 0 <= i < |segs| :: '.' !in segs[i]
  }

  lemma {:induction false} SplitFacts(s: string)
    ensures Dotless(Split(s)) && |Split(s)| == Dots(s) + 1 && Join(Split(s)) == s
  {
    if s != [] {
      SplitFacts(s[1..]);
      var rest := Split(s[1..]);
      if s[0] == '.' {
        assert Split(s)[1..] == rest;
        assert [] + "." + s[1..] == s;
      } else {
        assert Split(s)[1..] == rest[1..];
        if |rest| > 1 {
          assert Join(Split(s)) == [s[0]] + (rest[0] + "." + Join(rest[1..]));
        }
      }
    }
  }

  lemma {:induction false} SplitAppend(q: string, t: string)
    ensures Split(q + "." + t) == Split(q) + Split(t)
  {
    var s := q + "." + t;
    if q == [] {
      assert s[1..] == t;
    } else {
      assert s[1..] == q[1..] + "." + t;
      SplitAppend(q[1..], t);
    }
  }

  lemma {:induction false} JoinAppend(a: seq<string>, b: seq<string>)
    requires |a| >= 1 && |b| >= 1
    ensures Join(a + b) == Join(a) + "." + Join(b)
  {
    assert (a + b)[1..] == a[1..] + b;
    if |a| > 1 {
      JoinAppend(a[1..], b);
    }
  }

  lemma {:induction false} SplitDotless(s: string)
    requires '.' !in s
    ensures Split(s) == [s]
  {
    if s != [] {
      assert s[0] in s;
      SplitDotless(s[1..]);
      assert [s[0]] + s[1..] == s;
    }
  }

  lemma {:induction false} SplitJoin(segs: seq<string>)
    requires |segs| >= 1 && Dotless(segs)
    ensures Split(Join(segs)) == segs
  {
    SplitDotless(segs[0]);
    if |segs| > 1 {
      SplitJoin(segs[1..]);
      SplitAppend(segs[0], Join(segs[1..]));
    }
  }

  /** The string test for a branch is the prefix order on segments. */
  lemma UnderIsSegmentPrefix(path: string, prefix: string)
    ensures Under(path, prefix) <==> Split(prefix) <= Split(path)
  {
    SplitFacts(path);
    SplitFacts(prefix);
    var p, q := Split(path), Split(prefix);
    if prefix + "." <= path {
      var t := path[|prefix| + 1..];
      assert path == prefix + "." + t;
      SplitAppend(prefix, t);
    } else if q <= p && q != p {
      assert p == q + p[|q|..];
      JoinAppend(q, p[|q|..]);
    }
  }

  /** What a scope allows, in terms of dotted segments. */
  lemma ScopeBySegments(scope: Scope, taxonomy: string)
    ensures scope.CanRead(taxonomy) <==> scope.all || exists p | p in scope.read :: Split(p) <= Split(taxonomy)
    ensures scope.CanWrite(taxonomy) <==> scope.all || exists p | p in scope.write :: Split(p) <= Split(taxonomy)
    ensures scope.TitleVisible(taxonomy) <==>
      scope.CanRead(taxonomy) || exists p | p in scope.titlesVisible :: Split(p) <= Split(taxonomy)
  {
    forall p ensures Under(taxonomy, p) <==> Split(p) <= Split(taxonomy) {
      UnderIsSegmentPrefix(taxonomy, p);
    }
  }

  /** The first `depth` segments of a deeper path name exactly the branch it lies in. */
  lemma FoldedPath(path: string, depth: nat)
    requires 1 <= depth <= |Split(path)|
    ensures Split(Join(Split(path)[..depth])) == Split(path)[..depth]
  {
    SplitFacts(path);
    SplitJoin(Split(path)[..depth]);
  }
}
