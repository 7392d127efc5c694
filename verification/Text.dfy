/** Title and link-text folding.
    The repository compares titles in three different ways; all three are written out here for
    ASCII text, because they disagree on some titles and the store's guarantees depend on where. */
module Text {

  /** What each trimming function removes at both ends. */
  datatype Blank =
    | SqlBlank  // SQLite's trim(): the space character only
    | GoBlank   // Go's strings.TrimSpace
  {
    predicate Has(c: char) {
      c == ' ' || (GoBlank? && (IsBlank(c) || c == '\U{0B}'))
    }
  }

  /** The class \s of a Go regular expression (the vertical tab is not in it). */
  predicate IsBlank(c: char) {
    c == ' ' || c == '\t' || c == '\n' || c == '\r' || c == '\U{0C}'
  }

  function LowerChar(c: char): char {
    if 'A' <= c <= 'Z' then (c as int + 32) as char else c
  }

  function Lower(s: string): string {
    seq(|s|, i requires 0 <= i < |s| => LowerChar(s[i]))
  }

  function TrimLeft(s: string, b: Blank): string {
    if s != [] && b.Has(s[0]) then TrimLeft(s[1..], b) else s
  }

  function TrimRight(s: string, b: Blank): string {
    if s != [] && b.Has(s[|s| - 1]) then TrimRight(s[..|s| - 1], b) else s
  }

  function Trim(s: string, b: Blank): string {
    TrimRight(TrimLeft(s, b), b)
  }

  /** Replaces every run of \s by one space. */
  function Collapse(s: string): string {
    if s == [] then []
    else if |s| > 1 && IsBlank(s[0]) && IsBlank(s[1]) then Collapse(s[1..])
    else [if IsBlank(s[0]) then ' ' else s[0]] + Collapse(s[1..])
  }

  /** lower(trim(title)), the SQL side of every title comparison. */
  function SqlFold(title: string): string {
    Lower(Trim(title, SqlBlank))
  }

  /** strings.ToLower(strings.TrimSpace(title)), the Go side of the conflict check. */
  function GoFold(title: string): string {
    Lower(Trim(title, GoBlank))
  }

  function NormalizeLink(s: string): string {
    Lower(Trim(Collapse(s), GoBlank))
  }

  /** A name with nothing for TrimSpace to remove. */
  predicate Trimmed(g: string) {
    g != [] ==> !GoBlank.Has(g[0]) && !GoBlank.Has(g[|g| - 1])
  }

  /** The text of a parsed link: trimmed, lower case, single interior spaces. */
  predicate IsNorm(r: string) {
    Trimmed(r) && Lowered(r) && Spaced(r)
  }

  predicate Lowered(r: string) {
    forall i | 0 <= i < |r| :: LowerChar(r[i]) == r[i]
  }

  predicate Spaced(r: string) {
    && (forall i | 0 <= i < |r| :: IsBlank(r[i]) ==> r[i] == ' ')
    && (forall i | 0 <= i < |r| - 1 :: r[i] == ' ' ==> r[i + 1] != ' ')
  }

  /** A title that healing and resolution read the same way. */
  predicate Plain(title: string) {
    NormalizeLink(title) == SqlFold(title)
  }

  // ---- what the folds ignore ----

  /** The same letter, large or small, or the same character. */
  predicate SameLetter(c: char, d: char) {
    || c == d
    || ('A' <= c <= 'Z' && d as int == c as int + 32)
    || ('A' <= d <= 'Z' && c as int == d as int + 32)
  }

  /** The same text up to the case of letters. */
  ghost predicate SameUpToCase(s: string, t: string) {
    |s| == |t| && forall i | 0 <= i < |s| :: SameLetter(s[i], t[i])
  }

  ghost predicate NoCapitals(s: string) {
    forall i | 0 <= i < |s| :: !('A' <= s[i] <= 'Z')
  }

  lemma LowerCharIff(c: char, d: char)
    ensures LowerChar(c) == LowerChar(d) <==> SameLetter(c, d)
    ensures !('A' <= LowerChar(c) <= 'Z')
  {
  }

  lemma LowerIff(s: string, t: string)
    ensures Lower(s) == Lower(t) <==> SameUpToCase(s, t)
    ensures NoCapitals(Lower(s))
  {
    forall i | 0 <= i < |s| ensures !('A' <= Lower(s)[i] <= 'Z') {
      LowerCharIff(s[i], s[i]);
    }
    if Lower(s) == Lower(t) {
      assert |s| == |Lower(s)| == |Lower(t)| == |t|;
      forall i | 0 <= i < |s| ensures SameLetter(s[i], t[i]) {
        assert Lower(s)[i] == Lower(t)[i];
        LowerCharIff(s[i], t[i]);
      }
    }
    if SameUpToCase(s, t) {
      forall i | 0 <= i < |s| ensures Lower(s)[i] == Lower(t)[i] {
        LowerCharIff(s[i], t[i]);
      }
    }
  }

  /** Names that differ in case only are one name to every fold, and no folded name has capitals. */
  lemma FoldsIgnoreCase(s: string, t: string)
    requires SameUpToCase(s, t)
    ensures GoFold(s) == GoFold(t) && SqlFold(s) == SqlFold(t) && NormalizeLink(s) == NormalizeLink(t)
    ensures NoCapitals(GoFold(s)) && NoCapitals(SqlFold(s)) && NoCapitals(NormalizeLink(s))
  {
    LowerIff(s, t);
    LowerTrim(s, GoBlank);
    LowerTrim(t, GoBlank);
    LowerTrim(s, SqlBlank);
    LowerTrim(t, SqlBlank);
    LowerIff(Trim(s, GoBlank), []);
    LowerIff(Trim(s, SqlBlank), []);
    LowerIff(Trim(Collapse(s), GoBlank), []);
    LowerTrim(Collapse(s), GoBlank);
    LowerTrim(Collapse(t), GoBlank);
    LowerCollapse(s);
    LowerCollapse(t);
  }

  /** Of names with nothing to trim, the conflict check takes exactly those for one that differ in
      case only. */
  lemma SameNameIff(s: string, t: string)
    requires Trimmed(s) && Trimmed(t)
    ensures GoFold(s) == GoFold(t) <==> SameUpToCase(s, t)
    ensures SqlFold(s) == GoFold(t) <==> SameUpToCase(s, t)
  {
    TrimmedFolds(s);
    TrimmedFolds(t);
    FoldsAgree(s);
    FoldsAgree(t);
    LowerIff(s, t);
  }

  /** What strings.TrimSpace takes off. */
  predicate IsSpace(c: char) {
    c == ' ' || c == '\t' || c == '\n' || c == '\r' || c == '\U{0B}' || c == '\U{0C}'
  }

  lemma HasSpace(c: char)
    ensures GoBlank.Has(c) <==> IsSpace(c)
    ensures SqlBlank.Has(c) <==> c == ' '
    ensures IsBlank(c) <==> IsSpace(c) && c != '\U{0B}'
  {
  }

  lemma {:induction false} TrimLeftSkips(pre: string, s: string, b: Blank)
    requires forall i | 0 <= i < |pre| :: b.Has(pre[i])
    ensures TrimLeft(pre + s, b) == TrimLeft(s, b)
  {
    if pre == [] {
      assert pre + s == s;
    } else {
      assert (pre + s)[0] == pre[0] && (pre + s)[1..] == pre[1..] + s;
      TrimLeftSkips(pre[1..], s, b);
    }
  }

  lemma {:induction false} TrimRightSkips(s: string, post: string, b: Blank)
    requires forall i | 0 <= i < |post| :: b.Has(post[i])
    ensures TrimRight(s + post, b) == TrimRight(s, b)
    decreases |post|
  {
    if post == [] {
      assert s + post == s;
    } else {
      var n := |post| - 1;
      assert (s + post)[|s + post| - 1] == post[n] && (s + post)[..|s + post| - 1] == s + post[..n];
      TrimRightSkips(s, post[..n], b);
    }
  }

  lemma {:induction false} TrimLeftAll(s: string, b: Blank)
    requires forall i | 0 <= i < |s| :: b.Has(s[i])
    ensures TrimLeft(s, b) == []
  {
    if s != [] {
      TrimLeftAll(s[1..], b);
    }
  }

  lemma {:induction false} TrimLeftKeeps(s: string, post: string, b: Blank)
    requires forall i | 0 <= i < |post| :: b.Has(post[i])
    ensures TrimLeft(s + post, b) == if TrimLeft(s, b) == [] then [] else TrimLeft(s, b) + post
  {
    if s == [] {
      assert s + post == post;
      TrimLeftAll(post, b);
    } else {
      assert (s + post)[0] == s[0] && (s + post)[1..] == s[1..] + post;
      if b.Has(s[0]) {
        TrimLeftKeeps(s[1..], post, b);
      }
    }
  }

  lemma TrimSkips(pre: string, s: string, post: string, b: Blank)
    requires forall i | 0 <= i < |pre| :: b.Has(pre[i])
    requires forall i | 0 <= i < |post| :: b.Has(post[i])
    ensures Trim(pre + s + post, b) == Trim(s, b)
  {
    assert pre + s + post == pre + (s + post);
    TrimLeftSkips(pre, s + post, b);
    TrimLeftKeeps(s, post, b);
    TrimRightSkips(TrimLeft(s, b), post, b);
  }

  /** Surrounding whitespace does not count for the Go fold, nor spaces for the SQL fold. */
  lemma FoldsIgnoreSpace(pre: string, s: string, post: string)
    requires forall i | 0 <= i < |pre| :: IsSpace(pre[i])
    requires forall i | 0 <= i < |post| :: IsSpace(post[i])
    ensures GoFold(pre + s + post) == GoFold(s)
    ensures (forall c | c in pre + post :: c == ' ') ==> SqlFold(pre + s + post) == SqlFold(s)
  {
    forall c ensures GoBlank.Has(c) <==> IsSpace(c) {
      HasSpace(c);
    }
    TrimSkips(pre, s, post, GoBlank);
    if forall c | c in pre + post :: c == ' ' {
      forall i | 0 <= i < |pre| ensures SqlBlank.Has(pre[i]) {
        assert pre[i] in pre + post;
      }
      forall i | 0 <= i < |post| ensures SqlBlank.Has(post[i]) {
        assert post[i] in pre + post;
      }
      TrimSkips(pre, s, post, SqlBlank);
    }
  }

  // ---- lowering commutes with trimming and collapsing ----

  lemma {:induction false} LowerTrimLeft(s: string, b: Blank)
    ensures Lower(TrimLeft(s, b)) == TrimLeft(Lower(s), b)
  {
    if s != [] && b.Has(s[0]) {
      assert Lower(s)[1..] == Lower(s[1..]);
      LowerTrimLeft(s[1..], b);
    }
  }

  lemma {:induction false} LowerTrimRight(s: string, b: Blank)
    ensures Lower(TrimRight(s, b)) == TrimRight(Lower(s), b)
  {
    if s != [] && b.Has(s[|s| - 1]) {
      assert Lower(s)[..|s| - 1] == Lower(s[..|s| - 1]);
      LowerTrimRight(s[..|s| - 1], b);
    }
  }

  lemma LowerTrim(s: string, b: Blank)
    ensures Lower(Trim(s, b)) == Trim(Lower(s), b)
  {
    LowerTrimLeft(s, b);
    LowerTrimRight(TrimLeft(s, b), b);
  }

  lemma {:induction false} LowerCollapse(s: string)
    ensures Lower(Collapse(s)) == Collapse(Lower(s))
  {
    if s != [] {
      assert Lower(s)[1..] == Lower(s[1..]);
      LowerCollapse(s[1..]);
      if !(|s| > 1 && IsBlank(s[0]) && IsBlank(s[1])) {
        var c := if IsBlank(s[0]) then ' ' else s[0];
        assert Lower([c] + Collapse(s[1..])) == [LowerChar(c)] + Lower(Collapse(s[1..]));
      }
    }
  }

  // ---- trimming ----

  lemma {:induction false} TrimLeftFacts(s: string, b: Blank)
    ensures var v := TrimLeft(s, b); v != [] ==> !b.Has(v[0])
    ensures TrimLeft(TrimLeft(s, SqlBlank), b) == TrimLeft(s, b)
    ensures |TrimLeft(s, b)| <= |s| && TrimLeft(s, b) == s[|s| - |TrimLeft(s, b)|..]
  {
    if s != [] {
      TrimLeftFacts(s[1..], b);
    }
  }

  lemma {:induction false} TrimRightFacts(s: string, b: Blank)
    ensures var v := TrimRight(s, b); v != [] ==> !b.Has(v[|v| - 1])
    ensures TrimRight(TrimRight(s, SqlBlank), b) == TrimRight(s, b)
    ensures |TrimRight(s, b)| <= |s| && TrimRight(s, b) == s[..|TrimRight(s, b)|]
    ensures forall i | |TrimRight(s, b)| <= i < |s| :: b.Has(s[i])
  {
    if s != [] && s[|s| - 1] == ' ' {
      TrimRightFacts(s[..|s| - 1], b);
    } else if s != [] && b.Has(s[|s| - 1]) {
      TrimRightFacts(s[..|s| - 1], b);
    }
  }

  /** The Go fold of a title is its SQL fold exactly when that is already trimmed. */
  lemma FoldsAgree(title: string)
    ensures GoFold(title) == SqlFold(title) <==> Trimmed(SqlFold(title))
  {
    GoFoldTrimmed(title);
    if Trimmed(SqlFold(title)) {
      TrimmedFold(title);
    }
  }

  lemma TrimmedFold(title: string)
    requires Trimmed(SqlFold(title))
    ensures GoFold(title) == SqlFold(title)
  {
    LowerTrim(title, SqlBlank);
    LowerTrim(title, GoBlank);
    var u := Lower(title);
    var v := TrimLeft(u, SqlBlank);
    TrimLeftFacts(u, GoBlank);
    TrimLeftFacts(u, SqlBlank);
    TrimRightFacts(v, SqlBlank);
    TrimRightFacts(v, GoBlank);
  }

  lemma GoFoldTrimmed(title: string)
    ensures Trimmed(GoFold(title))
  {
    LowerTrim(title, GoBlank);
    TrimIsTrimmed(Lower(title));
  }

  /** A title Go would not trim, SQL does not trim either. */
  lemma TrimmedFolds(title: string)
    requires Trimmed(title)
    ensures SqlFold(title) == Lower(title) && Trimmed(SqlFold(title))
  {
    assert TrimLeft(title, SqlBlank) == title && TrimRight(title, SqlBlank) == title;
    assert Trim(title, SqlBlank) == title;
    if title != [] {
      LowerKeepsBlank(title[0]);
      LowerKeepsBlank(title[|title| - 1]);
    }
  }

  lemma LowerKeepsBlank(c: char)
    ensures GoBlank.Has(LowerChar(c)) <==> GoBlank.Has(c)
  {
  }

  lemma TrimIsTrimmed(u: string)
    ensures Trimmed(Trim(u, GoBlank))
  {
    TrimLeftFacts(u, GoBlank);
    TrimRightFacts(TrimLeft(u, GoBlank), GoBlank);
  }

  // ---- normalized link text ----

  lemma {:induction false} CollapseFacts(s: string)
    ensures Spaced(Collapse(s))
    ensures Lowered(s) ==> Lowered(Collapse(s))
    ensures s != [] ==> Collapse(s) != [] && (IsBlank(s[0]) <==> Collapse(s)[0] == ' ')
  {
    if s != [] {
      CollapseFacts(s[1..]);
    }
  }

  lemma SliceOfSlice(s: string, i: nat, n: nat)
    requires i + n <= |s|
    ensures s[i..][..n] == s[i..i + n]
  {
  }

  lemma {:induction false} TrimLeftIsSuffix(s: string, b: Blank)
    ensures |TrimLeft(s, b)| <= |s| && TrimLeft(s, b) == s[|s| - |TrimLeft(s, b)|..]
  {
    if s != [] && b.Has(s[0]) {
      TrimLeftIsSuffix(s[1..], b);
    }
  }

  lemma {:induction false} TrimRightIsPrefix(s: string, b: Blank)
    ensures |TrimRight(s, b)| <= |s| && TrimRight(s, b) == s[..|TrimRight(s, b)|]
  {
    if s != [] && b.Has(s[|s| - 1]) {
      TrimRightIsPrefix(s[..|s| - 1], b);
    }
  }

  lemma TrimIsSlice(s: string, b: Blank) returns (i: nat, j: nat)
    ensures i <= j <= |s| && Trim(s, b) == s[i..j]
  {
    var v := TrimLeft(s, b);
    TrimLeftIsSuffix(s, b);
    TrimRightIsPrefix(v, b);
    i := |s| - |v|;
    j := i + |TrimRight(v, b)|;
    SliceOfSlice(s, i, |TrimRight(v, b)|);
  }

  /** Link text has no capitals, begins and ends with no whitespace, and holds no whitespace but
      single spaces (and the vertical tab, which \s does not match). */
  lemma NormalizeLinkIsNorm(s: string)
    ensures IsNorm(NormalizeLink(s)) && NoCapitals(NormalizeLink(s))
    ensures var r := NormalizeLink(s);
      && (r != "" ==> !IsSpace(r[0]) && !IsSpace(r[|r| - 1]))
      && (forall i | 0 <= i < |r| && IsSpace(r[i]) :: r[i] == ' ' || r[i] == '\U{0B}')
      && (forall i | 0 <= i < |r| - 1 :: r[i] != ' ' || r[i + 1] != ' ')
  {
    NormalizeLinkNorm(s);
    FoldsIgnoreCase(s, s);
  }

  lemma NormalizeLinkNorm(s: string)
    ensures IsNorm(NormalizeLink(s))
  {
    LowerTrim(Collapse(s), GoBlank);
    LowerCollapse(s);
    var c := Collapse(Lower(s));
    CollapseFacts(Lower(s));
    TrimIsTrimmed(c);
    var i, j := TrimIsSlice(c, GoBlank);
  }

  lemma {:induction false} CollapseSpaced(w: string, tail: nat)
    requires Spaced(w) && (tail > 0 && w != [] ==> w[|w| - 1] != ' ')
    ensures Collapse(w + seq(tail, i => ' ')) == w + (if tail > 0 then " " else "")
    decreases |w| + tail
  {
    var sp := seq(tail, i => ' ');
    if w != [] {
      assert (w + sp)[1..] == w[1..] + sp;
      assert Spaced(w[1..]);
      CollapseSpaced(w[1..], tail);
      if |w| > 1 && w[0] == ' ' {
        assert w[0 + 1] != ' ';
      }
    } else if tail > 0 {
      assert (w + sp)[1..] == w + seq(tail - 1, i => ' ');
      CollapseSpaced(w, tail - 1);
    }
  }

  lemma {:induction false} CollapseTrimLeft(u: string)
    ensures TrimLeft(Collapse(u), GoBlank) == TrimLeft(Collapse(TrimLeft(u, SqlBlank)), GoBlank)
  {
    if u != [] && u[0] == ' ' {
      CollapseTrimLeft(u[1..]);
    }
  }

  lemma SpacesTail(v: string)
    ensures |TrimRight(v, SqlBlank)| <= |v|
    ensures v == TrimRight(v, SqlBlank) + seq(|v| - |TrimRight(v, SqlBlank)|, i => ' ')
  {
    TrimRightFacts(v, SqlBlank);
  }

  /** Collapsing changes nothing that trimming leaves, when what is left is spaced. */
  lemma TrimsAgree(u: string)
    requires Trimmed(Trim(u, SqlBlank)) && Spaced(Trim(u, SqlBlank))
    ensures Trim(Collapse(u), GoBlank) == Trim(u, SqlBlank)
  {
    var v := TrimLeft(u, SqlBlank);
    var w := TrimRight(v, SqlBlank);
    TrimLeftFacts(u, SqlBlank);
    SpacesTail(v);
    CollapseTrimLeft(u);
    CollapseSpaced(w, |v| - |w|);
    if w == [] {
      assert v == [];
    } else {
      TrimTail(w, if |v| > |w| then " " else "");
    }
  }

  /** A title whose SQL fold is well-formed link text is healed under that same text. */
  lemma NormalFold(title: string)
    requires IsNorm(SqlFold(title))
    ensures NormalizeLink(title) == SqlFold(title)
  {
    LowerTrim(title, SqlBlank);
    LowerTrim(Collapse(title), GoBlank);
    LowerCollapse(title);
    TrimsAgree(Lower(title));
  }

  /** Healing and resolution agree on a title exactly when its SQL fold is well-formed link text. */
  lemma PlainIff(title: string)
    ensures Plain(title) <==> IsNorm(SqlFold(title))
  {
    NormalizeLinkIsNorm(title);
    if IsNorm(SqlFold(title)) {
      NormalFold(title);
    }
  }

  lemma TrimTail(w: string, t: string)
    requires w != [] && Trimmed(w) && (t == "" || t == " ")
    ensures TrimLeft(w + t, GoBlank) == w + t && TrimRight(w + t, GoBlank) == w
  {
    if t == " " {
      assert (w + t)[..|w + t| - 1] == w;
    } else {
      assert w + t == w;
    }
  }

  lemma NormFixed(r: string)
    requires IsNorm(r)
    ensures NormalizeLink(r) == r && SqlFold(r) == r && Plain(r)
  {
    assert Trim(r, SqlBlank) == r;
    assert Lower(r) == r;
    NormalFold(r);
  }
}
