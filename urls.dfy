/**
 * The production-URL derivation shared by the modal's create flow and the
 * toolbar's deploy: find the first `https://…pages.dev` token in the deploy
 * output (`/https:\/\/[^\s]*\.pages\.dev/`), then drop its per-deploy hash label
 * (`/https:\/\/[^.]+\.(.+\.pages\.dev)/`). Both regular expressions are
 * hand-coded matchers with the engine's leftmost-start, greedy-then-back-off
 * semantics.
 */
module DeployUrl {
  import opened Wrappers
  import opened Text
  import opened Domain
  import Parsing

  const HTTPS := "https://"

  /** `https://` starts at `p`, compared character by character. */
  predicate HttpsAt(s: string, p: nat) {
    && p + 8 <= |s|
    && s[p] == 'h' && s[p + 1] == 't' && s[p + 2] == 't' && s[p + 3] == 'p'
    && s[p + 4] == 's' && s[p + 5] == ':' && s[p + 6] == '/' && s[p + 7] == '/'
  }

  /** An address of the shape the derivation produces: `https://…​.pages.dev`. */
  predicate IsPagesUrl(x: string) {
    |x| >= 18 && HttpsAt(x, 0) && Parsing.PagesDevEndsAt(x, |x|)
  }

  /** The largest `j` in `[lo, hi]` at which `.pages.dev` ends (a greedy run backing off to the suffix). */
  function LastPagesDevEnd(s: string, lo: nat, hi: nat): (j: Option<nat>)
    requires hi <= |s|
    ensures j.Some? ==> lo <= j.value <= hi
    decreases hi
  {
    if hi < lo then None
    else if Parsing.PagesDevEndsAt(s, hi) then Some(hi)
    else if hi == 0 then None
    else LastPagesDevEnd(s, lo, hi - 1)
  }

  lemma {:induction false} LastPagesDevEndFound(s: string, lo: nat, hi: nat)
    requires hi <= |s|
    ensures LastPagesDevEnd(s, lo, hi).Some? ==>
              Parsing.PagesDevEndsAt(s, LastPagesDevEnd(s, lo, hi).value)
              && forall k :: LastPagesDevEnd(s, lo, hi).value < k <= hi ==> !Parsing.PagesDevEndsAt(s, k)
    ensures LastPagesDevEnd(s, lo, hi).None? ==> forall k :: lo <= k <= hi ==> !Parsing.PagesDevEndsAt(s, k)
    decreases hi
  {
    if hi < lo || Parsing.PagesDevEndsAt(s, hi) || hi == 0 {
    } else {
      LastPagesDevEndFound(s, lo, hi - 1);
    }
  }

  // ---------------------------------------------------------------------
  // `/https:\/\/[^\s]*\.pages\.dev/`
  // ---------------------------------------------------------------------

  /**
   * Where the first pattern's match starting at `p` ends: after `https://` the
   * greedy `[^\s]*` runs to the next space and backs off to the last `.pages.dev`.
   */
  function UrlEnd(s: string, p: nat): (e: Option<nat>)
    requires p <= |s|
    ensures e.Some? ==> p + 18 <= e.value <= |s|
  {
    if HttpsAt(s, p) then LastPagesDevEnd(s, p + 18, RunEnd(s, p + 8)) else None
  }

  /** The leftmost start at or after `p` where the first pattern matches, with the match's end. */
  function FirstUrlFrom(s: string, p: nat): (m: Option<(nat, nat)>)
    requires p <= |s|
    ensures m.Some? ==> p <= m.value.0 && m.value.0 + 18 <= m.value.1 <= |s|
    decreases |s| - p
  {
    var e := UrlEnd(s, p);
    if e.Some? then Some((p, e.value))
    else if p == |s| then None
    else FirstUrlFrom(s, p + 1)
  }

  /** `output.match(/https:\/\/[^\s]*\.pages\.dev/)?.[0]`. */
  function FindDeployUrl(s: string): Option<string> {
    var m := FirstUrlFrom(s, 0);
    if m.Some? then Some(s[m.value.0..m.value.1]) else None
  }

  lemma {:induction false} FirstUrlFound(s: string, p: nat)
    requires p <= |s|
    ensures FirstUrlFrom(s, p).Some? ==>
              UrlEnd(s, FirstUrlFrom(s, p).value.0) == Some(FirstUrlFrom(s, p).value.1)
              && forall q :: p <= q < FirstUrlFrom(s, p).value.0 ==> UrlEnd(s, q).None?
    ensures FirstUrlFrom(s, p).None? ==> forall q :: p <= q <= |s| ==> UrlEnd(s, q).None?
    decreases |s| - p
  {
    if UrlEnd(s, p).Some? || p == |s| {
    } else {
      FirstUrlFound(s, p + 1);
    }
  }

  /** A match of the first pattern is a space-free `https://…pages.dev` address. */
  lemma UrlShape(s: string, p: nat)
    requires p <= |s| && UrlEnd(s, p).Some?
    ensures IsPagesUrl(s[p..UrlEnd(s, p).value]) && NoSpace(s[p..UrlEnd(s, p).value])
  {
    var j := UrlEnd(s, p).value;
    var r := RunEnd(s, p + 8);
    LastPagesDevEndFound(s, p + 18, r);
    var x := s[p..j];
    assert forall k :: 0 <= k < 8 ==> x[k] == s[p + k];
    assert forall k :: 8 <= k < |x| ==> x[k] == s[p + k] && p + 8 <= p + k < r;
    PagesDevOfSlice(s, p, j);
  }

  /** Cutting a string just after a `.pages.dev` keeps it as a suffix. */
  lemma PagesDevOfSlice(s: string, i: nat, j: nat)
    requires i + 10 <= j <= |s| && Parsing.PagesDevEndsAt(s, j)
    ensures Parsing.PagesDevEndsAt(s[i..j], j - i)
  {
  }

  /** The URL found is the leftmost match, and it has the shape the pattern promises. */
  lemma DeployUrlIsLeftmost(s: string)
    ensures FindDeployUrl(s).Some? <==> exists p :: 0 <= p <= |s| && UrlEnd(s, p).Some?
    ensures FindDeployUrl(s).Some? ==>
              IsPagesUrl(FindDeployUrl(s).value) && NoSpace(FindDeployUrl(s).value)
  {
    FirstUrlFound(s, 0);
    if FirstUrlFrom(s, 0).Some? {
      UrlShape(s, FirstUrlFrom(s, 0).value.0);
    }
  }

  /**
   * Any `https://W.pages.dev` with a space-free `W` in the output is matched at
   * its start, unless an earlier match exists, and the match reaches at least its end.
   */
  lemma UrlMatchesToken(s: string, q: nat, w: string)
    requires q + 18 + |w| <= |s| && NoSpace(w)
    requires s[q..q + 18 + |w|] == HTTPS + w + Parsing.PAGES_DEV
    ensures UrlEnd(s, q).Some? && q + 18 + |w| <= UrlEnd(s, q).value
    ensures FindDeployUrl(s).Some?
  {
    TokenMatchesAtStart(s, q, w);
    DeployUrlIsLeftmost(s);
  }

  lemma TokenMatchesAtStart(s: string, q: nat, w: string)
    requires q + 18 + |w| <= |s| && NoSpace(w)
    requires s[q..q + 18 + |w|] == HTTPS + w + Parsing.PAGES_DEV
    ensures UrlEnd(s, q).Some? && q + 18 + |w| <= UrlEnd(s, q).value
  {
    var t := q + 18 + |w|;
    var tok := HTTPS + w + Parsing.PAGES_DEV;
    assert forall k :: 0 <= k < 18 + |w| ==> s[q + k] == tok[k];
    assert HttpsAt(s, q);
    TokenHasNoSpace(s, q, w);
    assert t <= RunEnd(s, q + 8);
    assert Parsing.PagesDevEndsAt(s, t);
    LastPagesDevEndFound(s, q + 18, RunEnd(s, q + 8));
  }

  lemma TokenHasNoSpace(s: string, q: nat, w: string)
    requires q + 18 + |w| <= |s| && NoSpace(w)
    requires s[q..q + 18 + |w|] == HTTPS + w + Parsing.PAGES_DEV
    ensures forall k :: q + 8 <= k < q + 18 + |w| ==> !IsSpace(s[k])
  {
    var tok := HTTPS + w + Parsing.PAGES_DEV;
    forall k | q + 8 <= k < q + 18 + |w|
      ensures !IsSpace(s[k])
    {
      assert s[k] == tok[k - q];
      if k < q + 8 + |w| {
        assert tok[k - q] == w[k - q - 8];
      }
    }
  }

  // ---------------------------------------------------------------------
  // `/https:\/\/[^.]+\.(.+\.pages\.dev)/`
  // ---------------------------------------------------------------------

  /**
   * Group 1 of the second pattern for a match starting at `p`: `[^.]+` must
   * reach the first dot after `https://`, and the greedy `.+` (no line
   * terminators) backs off to the last `.pages.dev`.
   */
  function HashGroupAt(u: string, p: nat): (g: Option<(nat, nat)>)
    requires p <= |u|
    ensures g.Some? ==> p + 9 < g.value.0 && g.value.0 + 11 <= g.value.1 <= |u|
  {
    if HttpsAt(u, p) then
      var d := FindFrom(u, '.', p + 8);
      if p + 8 < d < |u| then
        var j := LastPagesDevEnd(u, d + 12, LineEnd(u, d + 1));
        if j.Some? then Some((d + 1, j.value)) else None
      else None
    else None
  }

  function FirstGroupFrom(u: string, p: nat): (g: Option<(nat, nat)>)
    requires p <= |u|
    ensures g.Some? ==> g.value.0 + 11 <= g.value.1 <= |u|
    decreases |u| - p
  {
    var g := HashGroupAt(u, p);
    if g.Some? then g
    else if p == |u| then None
    else FirstGroupFrom(u, p + 1)
  }

  /** `pagesDevMatch ? \`https://${pagesDevMatch[1]}\` : deployUrl`. */
  function StripDeployHash(u: string): string {
    var g := FirstGroupFrom(u, 0);
    if g.Some? then HTTPS + u[g.value.0..g.value.1] else u
  }

  /** The URL the create and deploy flows store as `prodUrl`, from the command's two streams. */
  function ProdUrlFromOutput(stdout: string, stderr: string): Option<string> {
    var u := FindDeployUrl(stdout + "\n" + stderr);
    if u.Some? then Some(StripDeployHash(u.value)) else None
  }

  lemma {:induction false} FirstGroupFound(u: string, p: nat)
    requires p <= |u|
    ensures FirstGroupFrom(u, p).None? ==> forall q :: p <= q <= |u| ==> HashGroupAt(u, q).None?
    ensures FirstGroupFrom(u, p).Some? ==> exists q :: p <= q <= |u| && FirstGroupFrom(u, p) == HashGroupAt(u, q)
    decreases |u| - p
  {
    if HashGroupAt(u, p).Some? || p == |u| {
    } else {
      FirstGroupFound(u, p + 1);
    }
  }

  /** `https://H.R.pages.dev`, with a dot-free hash label `H`, becomes `https://R.pages.dev`. */
  lemma StripsHashLabel(h: string, r: string)
    requires h != [] && '.' !in h
    requires r != [] && NoSpace(r)
    ensures StripDeployHash(HTTPS + h + "." + r + Parsing.PAGES_DEV) == HTTPS + r + Parsing.PAGES_DEV
  {
    var u := HTTPS + h + "." + r + Parsing.PAGES_DEV;
    var d := 8 + |h|;
    LabelledUrlParts(h, r);
    FindFromIs(u, '.', 8, d);
    NoTerminatorInHost(r);
    LineEndIs(u, d + 1);
    StripAtStart(u, d);
  }

  /** Where the pieces of `https://H.R.pages.dev` sit. */
  lemma LabelledUrlParts(h: string, r: string)
    requires '.' !in h
    ensures var u := HTTPS + h + "." + r + Parsing.PAGES_DEV;
      && |u| == 8 + |h| + 1 + |r| + 10
      && HttpsAt(u, 0)
      && u[8 + |h|] == '.'
      && (forall k :: 8 <= k < 8 + |h| ==> u[k] != '.')
      && u[8 + |h| + 1..] == r + Parsing.PAGES_DEV
      && Parsing.PagesDevEndsAt(u, |u|)
  {
    LabelledUrlHead(h, r);
    LabelledUrlTail(h, r);
  }

  lemma LabelledUrlHead(h: string, r: string)
    requires '.' !in h
    ensures var u := HTTPS + h + "." + r + Parsing.PAGES_DEV;
      && |u| == 8 + |h| + 1 + |r| + 10
      && HttpsAt(u, 0)
      && u[8 + |h|] == '.'
      && (forall k :: 8 <= k < 8 + |h| ==> u[k] != '.')
  {
    var u := HTTPS + h + "." + r + Parsing.PAGES_DEV;
    assert forall k :: 8 <= k < 8 + |h| ==> u[k] == h[k - 8];
  }

  lemma LabelledUrlTail(h: string, r: string)
    ensures var u := HTTPS + h + "." + r + Parsing.PAGES_DEV;
      && u[8 + |h| + 1..] == r + Parsing.PAGES_DEV
      && Parsing.PagesDevEndsAt(u, |u|)
  {
    var head := HTTPS + h + ".";
    var pre := head + r;
    AppendAssoc(head, r, Parsing.PAGES_DEV);
    assert (head + (r + Parsing.PAGES_DEV))[|head|..] == r + Parsing.PAGES_DEV;
    PagesDevAtEnd(pre);
  }

  lemma PagesDevAtEnd(pre: string)
    ensures Parsing.PagesDevEndsAt(pre + Parsing.PAGES_DEV, |pre| + 10)
  {
    var x := pre + Parsing.PAGES_DEV;
    assert forall k :: |pre| <= k < |x| ==> x[k] == Parsing.PAGES_DEV[k - |pre|];
  }

  lemma NoTerminatorInHost(r: string)
    requires NoSpace(r)
    ensures forall k :: 0 <= k < |r + Parsing.PAGES_DEV| ==> !IsLineTerminator((r + Parsing.PAGES_DEV)[k])
  {
    var x := r + Parsing.PAGES_DEV;
    forall k | 0 <= k < |x|
      ensures !IsLineTerminator(x[k])
    {
      if k < |r| {
        assert x[k] == r[k];
      } else {
        assert x[k] == Parsing.PAGES_DEV[k - |r|];
      }
    }
  }

  lemma {:induction false} FindFromIs(s: string, c: char, i: nat, d: nat)
    requires i <= d < |s| && s[d] == c
    requires forall k :: i <= k < d ==> s[k] != c
    ensures FindFrom(s, c, i) == d
  {
  }

  lemma LineEndIs(u: string, i: nat)
    requires i <= |u|
    requires forall k :: 0 <= k < |u[i..]| ==> !IsLineTerminator(u[i..][k])
    ensures LineEnd(u, i) == |u|
  {
    assert forall k :: i <= k < |u| ==> u[k] == u[i..][k - i];
  }

  /** The second pattern matching at the start of `u` and reaching its end. */
  lemma StripAtStart(u: string, d: nat)
    requires HttpsAt(u, 0) && 8 < d && d + 12 <= |u|
    requires FindFrom(u, '.', 8) == d && LineEnd(u, d + 1) == |u| && Parsing.PagesDevEndsAt(u, |u|)
    ensures StripDeployHash(u) == HTTPS + u[d + 1..]
  {
    GroupAtStart(u, d);
    assert FirstGroupFrom(u, 0) == Some((d + 1, |u|));
  }

  lemma GroupAtStart(u: string, d: nat)
    requires HttpsAt(u, 0) && 8 < d && d + 12 <= |u|
    requires FindFrom(u, '.', 8) == d && LineEnd(u, d + 1) == |u| && Parsing.PagesDevEndsAt(u, |u|)
    ensures HashGroupAt(u, 0) == Some((d + 1, |u|))
  {
    assert LastPagesDevEnd(u, d + 12, |u|) == Some(|u|);
  }

  /** `https://L.pages.dev`, with only one label `L`, is kept as it is. */
  lemma KeepsSingleLabel(l: string)
    requires '.' !in l
    ensures StripDeployHash(HTTPS + l + Parsing.PAGES_DEV) == HTTPS + l + Parsing.PAGES_DEV
  {
    var u := HTTPS + l + Parsing.PAGES_DEV;
    assert forall k :: 0 <= k < 8 + |l| ==> u[k] != '.' by {
      forall k | 0 <= k < 8 + |l|
        ensures u[k] != '.'
      {
        if 8 <= k {
          assert u[k] == l[k - 8];
        }
      }
    }
    forall q | 0 <= q <= |u|
      ensures HashGroupAt(u, q).None?
    {
      if HttpsAt(u, q) {
        var d := FindFrom(u, '.', q + 8);
        assert d < |u| ==> d + 12 > |u|;
      }
    }
    FirstGroupFound(u, 0);
  }

  /** Whatever the output, a stored production URL is a space-free `https://…pages.dev` address. */
  lemma ProdUrlShape(stdout: string, stderr: string)
    requires ProdUrlFromOutput(stdout, stderr).Some?
    ensures IsPagesUrl(ProdUrlFromOutput(stdout, stderr).value)
    ensures NoSpace(ProdUrlFromOutput(stdout, stderr).value)
  {
    var out := stdout + "\n" + stderr;
    DeployUrlIsLeftmost(out);
    StripKeepsShape(FindDeployUrl(out).value);
  }

  /** Dropping the hash label keeps a space-free `https://…pages.dev` address one. */
  lemma StripKeepsShape(u: string)
    requires IsPagesUrl(u) && NoSpace(u)
    ensures IsPagesUrl(StripDeployHash(u)) && NoSpace(StripDeployHash(u))
  {
    var g := FirstGroupFrom(u, 0);
    if g.Some? {
      FirstGroupFound(u, 0);
      var q :| 0 <= q <= |u| && g == HashGroupAt(u, q);
      GroupEndsAtPagesDev(u, q);
      StrippedShape(u, g.value.0, g.value.1);
    }
  }

  /** Group 1 of the second pattern always ends just after a `.pages.dev`. */
  lemma GroupEndsAtPagesDev(u: string, q: nat)
    requires q <= |u| && HashGroupAt(u, q).Some?
    ensures Parsing.PagesDevEndsAt(u, HashGroupAt(u, q).value.1)
  {
    var d := FindFrom(u, '.', q + 8);
    LastPagesDevEndFound(u, d + 12, LineEnd(u, d + 1));
  }

  lemma StrippedShape(u: string, i: nat, j: nat)
    requires i + 11 <= j <= |u| && NoSpace(u) && Parsing.PagesDevEndsAt(u, j)
    ensures IsPagesUrl(HTTPS + u[i..j]) && NoSpace(HTTPS + u[i..j])
  {
    var x := HTTPS + u[i..j];
    assert forall k :: 8 <= k < |x| ==> x[k] == u[i + k - 8];
  }

  /** The output yields a production URL exactly when it holds a match of the first pattern. */
  lemma ProdUrlPresent(stdout: string, stderr: string)
    ensures ProdUrlFromOutput(stdout, stderr).Some? <==>
              exists p :: 0 <= p <= |stdout + "\n" + stderr| && UrlEnd(stdout + "\n" + stderr, p).Some?
  {
    DeployUrlIsLeftmost(stdout + "\n" + stderr);
  }

  // ---------------------------------------------------------------------
  // The link the connected dropdown shows.
  // ---------------------------------------------------------------------

  /** `linked.prodUrl || \`https://${linked.projectName}.pages.dev\``. */
  function DisplayUrl(l: LinkedProject): (url: string)
    ensures Truthy(l.prodUrl) ==> url == l.prodUrl.value
    ensures !Truthy(l.prodUrl) ==> IsPagesUrl(url) && url[8..|url| - 10] == l.projectName
  {
    if Truthy(l.prodUrl) then l.prodUrl.value else HTTPS + l.projectName + Parsing.PAGES_DEV
  }

  /** Every address the dropdown can show is a `https://…pages.dev` address when the stored one is. */
  lemma DisplayUrlShape(l: LinkedProject)
    requires l.prodUrl.Some? ==> l.prodUrl.value == "" || IsPagesUrl(l.prodUrl.value)
    ensures IsPagesUrl(DisplayUrl(l))
  {
  }
}
