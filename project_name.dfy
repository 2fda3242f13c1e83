/**
 * The connect dialog's `sanitizeProjectName`: lower-case the input, turn every
 * character outside `[a-zA-Z0-9-]` into `-`, collapse runs of `-`, and drop one
 * leading and one trailing `-` — a DNS-label-safe Pages project name.
 */
module ProjectName {
  import opened Text

  /** The characters a sanitised name is made of: `[a-z0-9-]`. */
  predicate IsLabelChar(c: char) {
    'a' <= c <= 'z' || '0' <= c <= '9' || c == '-'
  }

  predicate IsAlnum(c: char) {
    'a' <= c <= 'z' || '0' <= c <= '9'
  }

  /** The characters `[^a-zA-Z0-9-]` does not match. */
  predicate IsKept(c: char) {
    'a' <= c <= 'z' || 'A' <= c <= 'Z' || '0' <= c <= '9' || c == '-'
  }

  /** `.replace(/[^a-zA-Z0-9-]/g, '-')` */
  function Dashify(s: string): (r: string)
    ensures |r| == |s|
    ensures forall k :: 0 <= k < |s| ==> r[k] == if IsKept(s[k]) then s[k] else '-'
  {
    seq(|s|, k requires 0 <= k < |s| => if IsKept(s[k]) then s[k] else '-')
  }

  predicate NoDoubleDash(s: string) {
    forall k :: 0 <= k < |s| - 1 ==> !(s[k] == '-' && s[k + 1] == '-')
  }

  /** `.replace(/-+/g, '-')`: every maximal run of dashes becomes one dash. */
  function CollapseDashes(s: string): string
    decreases |s|
  {
    if |s| < 2 then s
    else if s[0] == '-' && s[1] == '-' then CollapseDashes(s[1..])
    else [s[0]] + CollapseDashes(s[1..])
  }

  /** Collapsing leaves no `--`, keeps the first and last characters, and adds no new character. */
  lemma {:induction false} CollapseFacts(s: string)
    ensures var r := CollapseDashes(s);
      && NoDoubleDash(r)
      && (|s| > 0 ==> |r| > 0 && r[0] == s[0] && r[|r| - 1] == s[|s| - 1])
      && (|s| == 0 ==> r == [])
      && (forall k :: 0 <= k < |r| ==> r[k] in s)
    decreases |s|
  {
    if |s| >= 2 {
      CollapseFacts(s[1..]);
      var r' := CollapseDashes(s[1..]);
      assert forall k :: 0 <= k < |r'| ==> r'[k] in s;
    }
  }

  /** `.replace(/^-|-$/g, '')`: one leading and one trailing dash go. */
  function TrimDashes(s: string): string {
    var t := if |s| > 0 && s[0] == '-' then s[1..] else s;
    if |t| > 0 && t[|t| - 1] == '-' then t[..|t| - 1] else t
  }

  function Sanitize(name: string): string {
    TrimDashes(CollapseDashes(Dashify(Lower(name))))
  }

  /** The shape of a DNS-label-safe name. */
  predicate IsSanitized(s: string) {
    && (forall k :: 0 <= k < |s| ==> IsLabelChar(s[k]))
    && NoDoubleDash(s)
    && (s == [] || (s[0] != '-' && s[|s| - 1] != '-'))
  }

  /** Every sanitised name is label-shaped: only `[a-z0-9-]`, no `--`, no dash at either end. */
  lemma SanitizedShape(name: string)
    ensures IsSanitized(Sanitize(name))
  {
    var d := Dashify(Lower(name));
    assert forall k :: 0 <= k < |d| ==> IsLabelChar(d[k]);
    var c := CollapseDashes(d);
    CollapseFacts(d);
    assert forall k :: 0 <= k < |c| ==> IsLabelChar(c[k]);
    var t := if |c| > 0 && c[0] == '-' then c[1..] else c;
    assert NoDoubleDash(t);
    assert t != [] ==> t[0] != '-';
  }

  /** A name already in label shape goes through unchanged. */
  lemma SanitizeKeepsSanitized(s: string)
    requires IsSanitized(s)
    ensures Sanitize(s) == s
  {
    assert Lower(s) == s;
    assert Dashify(s) == s;
    CollapseKeepsSingleDashes(s);
  }

  lemma {:induction false} CollapseKeepsSingleDashes(s: string)
    requires NoDoubleDash(s)
    ensures CollapseDashes(s) == s
    decreases |s|
  {
    if |s| >= 2 {
      assert NoDoubleDash(s[1..]);
      CollapseKeepsSingleDashes(s[1..]);
    }
  }

  /** Sanitising twice is sanitising once. */
  lemma SanitizeIdempotent(name: string)
    ensures Sanitize(Sanitize(name)) == Sanitize(name)
  {
    SanitizedShape(name);
    SanitizeKeepsSanitized(Sanitize(name));
  }

  /** A name is its own sanitisation exactly when it is already label-shaped. */
  lemma FixedPointsAreSanitized(s: string)
    ensures Sanitize(s) == s <==> IsSanitized(s)
  {
    SanitizedShape(s);
    if IsSanitized(s) { SanitizeKeepsSanitized(s); }
  }

  /** The dialog's "Will be created as" hint (a non-empty input whose sanitised form differs). */
  predicate ShowsRenameHint(raw: string) {
    raw != "" && Sanitize(raw) != raw
  }

  lemma RenameHintExactly(raw: string)
    ensures ShowsRenameHint(raw) <==> raw != "" && !IsSanitized(raw)
  {
    FixedPointsAreSanitized(raw);
  }

  /** The letters and digits of a string, in order. */
  function Alnums(s: string): (r: string)
    ensures |r| <= |s|
  {
    if s == [] then [] else (if IsAlnum(s[0]) then [s[0]] else []) + Alnums(s[1..])
  }

  lemma {:induction false} AlnumsAppend(a: string, b: string)
    ensures Alnums(a + b) == Alnums(a) + Alnums(b)
    decreases |a|
  {
    if a == [] {
      assert a + b == b;
    } else {
      var x := if IsAlnum(a[0]) then [a[0]] else [];
      assert (a + b)[0] == a[0];
      assert (a + b)[1..] == a[1..] + b;
      assert Alnums(a + b) == x + Alnums(a[1..] + b);
      AlnumsAppend(a[1..], b);
      assert x + (Alnums(a[1..]) + Alnums(b)) == (x + Alnums(a[1..])) + Alnums(b);
    }
  }

  lemma {:induction false} DashifyKeepsAlnums(s: string)
    ensures Alnums(Dashify(s)) == Alnums(s)
    decreases |s|
  {
    if s != [] {
      var t := Dashify(s);
      assert t == [t[0]] + Dashify(s[1..]);
      assert IsAlnum(t[0]) <==> IsAlnum(s[0]);
      AlnumsAppend([t[0]], Dashify(s[1..]));
      DashifyKeepsAlnums(s[1..]);
    }
  }

  lemma {:induction false} CollapseKeepsAlnums(s: string)
    ensures Alnums(CollapseDashes(s)) == Alnums(s)
    decreases |s|
  {
    if |s| >= 2 {
      CollapseKeepsAlnums(s[1..]);
      assert s == [s[0]] + s[1..];
      AlnumsAppend([s[0]], s[1..]);
      if !(s[0] == '-' && s[1] == '-') {
        AlnumsAppend([s[0]], CollapseDashes(s[1..]));
      }
    }
  }

  lemma TrimDashesKeepsAlnums(s: string)
    ensures Alnums(TrimDashes(s)) == Alnums(s)
  {
    var t := if |s| > 0 && s[0] == '-' then s[1..] else s;
    if |s| > 0 && s[0] == '-' {
      assert s == [s[0]] + t;
      AlnumsAppend([s[0]], t);
    }
    if |t| > 0 && t[|t| - 1] == '-' {
      assert t == t[..|t| - 1] + [t[|t| - 1]];
      AlnumsAppend(t[..|t| - 1], [t[|t| - 1]]);
    }
  }

  /**
   * Sanitising keeps exactly the letters and digits of the lower-cased input,
   * in their order; everything else it produces is single dashes between them.
   */
  lemma SanitizeKeepsAlnums(name: string)
    ensures Alnums(Sanitize(name)) == Alnums(Lower(name))
  {
    var d := Dashify(Lower(name));
    DashifyKeepsAlnums(Lower(name));
    CollapseKeepsAlnums(d);
    TrimDashesKeepsAlnums(CollapseDashes(d));
  }

  /** The name is empty exactly when the input has no ASCII letter or digit (`"!!"`, `"--"`, `""`). */
  lemma EmptyExactlyWithoutAlnums(name: string)
    ensures Sanitize(name) == "" <==> Alnums(Lower(name)) == ""
  {
    SanitizeKeepsAlnums(name);
    SanitizedShape(name);
    var s := Sanitize(name);
    if s != "" {
      assert IsAlnum(s[0]);
      assert s == [s[0]] + s[1..];
      AlnumsAppend([s[0]], s[1..]);
    }
  }

  /** An ASCII letter or digit in either case: what `[^a-zA-Z0-9-]` and the dash both leave alone. */
  predicate IsWordChar(c: char) {
    'a' <= c <= 'z' || 'A' <= c <= 'Z' || '0' <= c <= '9'
  }

  predicate IsWord(s: string) {
    s != [] && forall k :: 0 <= k < |s| ==> IsWordChar(s[k])
  }

  /** Punctuation, spaces, dashes and non-ASCII characters: no letter or digit at all. */
  predicate IsFiller(s: string) {
    forall k :: 0 <= k < |s| ==> !IsWordChar(s[k])
  }

  function Dashes(n: nat): (r: string)
    ensures |r| == n && forall k :: 0 <= k < n ==> r[k] == '-'
  {
    seq(n, k => '-')
  }

  /** Runs of dashes never cross a boundary that is not dash-on-both-sides. */
  lemma {:induction false} CollapseAppend(a: string, b: string)
    requires a == [] || b == [] || a[|a| - 1] != '-' || b[0] != '-'
    ensures CollapseDashes(a + b) == CollapseDashes(a) + CollapseDashes(b)
    decreases |a|
  {
    if a == [] {
      assert a + b == b;
    } else if |a| == 1 {
      if b != [] {
        assert (a + b)[1..] == b;
      } else {
        assert a + b == a;
      }
    } else {
      assert (a + b)[1..] == a[1..] + b;
      assert (a + b)[0] == a[0] && (a + b)[1] == a[1];
      CollapseAppend(a[1..], b);
    }
  }

  lemma {:induction false} CollapseDashRun(n: nat)
    requires n >= 1
    ensures CollapseDashes(Dashes(n)) == "-"
  {
    if n > 1 {
      assert Dashes(n)[1..] == Dashes(n - 1);
      CollapseDashRun(n - 1);
    }
  }

  lemma LowerDashifyFiller(s: string)
    requires IsFiller(s)
    ensures Dashify(Lower(s)) == Dashes(|s|)
  {
  }

  lemma LowerDashifyWord(s: string)
    requires IsWord(s)
    ensures Dashify(Lower(s)) == Lower(s)
    ensures IsSanitized(Lower(s)) && Lower(s) != [] && Lower(s)[0] != '-' && Lower(s)[|s| - 1] != '-'
  {
  }

  lemma DashifyLowerAppend(x: string, y: string)
    ensures Dashify(Lower(x + y)) == Dashify(Lower(x)) + Dashify(Lower(y))
  {
  }

  /** A label without dashes at its ends, for the word lemmas below. */
  predicate IsInnerLabel(w: string) {
    w != [] && NoDoubleDash(w) && w[0] != '-' && w[|w| - 1] != '-'
  }

  function OptDash(n: nat): string {
    if n > 0 then "-" else ""
  }

  lemma CollapseOptRun(n: nat)
    ensures CollapseDashes(Dashes(n)) == OptDash(n)
  {
    if n > 0 { CollapseDashRun(n); } else { assert Dashes(n) == []; }
  }

  lemma CollapseWordThen(a: string, t: string)
    requires IsInnerLabel(a)
    ensures CollapseDashes(a + t) == a + CollapseDashes(t)
  {
    CollapseKeepsSingleDashes(a);
    CollapseAppend(a, t);
  }

  lemma CollapseRunThen(n: nat, t: string)
    requires t != [] && t[0] != '-'
    ensures CollapseDashes(Dashes(n) + t) == OptDash(n) + CollapseDashes(t)
  {
    CollapseOptRun(n);
    CollapseAppend(Dashes(n), t);
  }

  lemma CollapseTailPart(ns: nat, b: string, nq: nat)
    requires IsInnerLabel(b) && ns >= 1
    ensures CollapseDashes(Dashes(ns) + (b + Dashes(nq))) == "-" + (b + OptDash(nq))
  {
    CollapseWordThen(b, Dashes(nq));
    CollapseOptRun(nq);
    CollapseRunThen(ns, b + Dashes(nq));
  }

  lemma CollapseMidPart(a: string, ns: nat, b: string, nq: nat)
    requires IsInnerLabel(a) && IsInnerLabel(b) && ns >= 1
    ensures CollapseDashes(a + (Dashes(ns) + (b + Dashes(nq)))) == a + ("-" + (b + OptDash(nq)))
  {
    CollapseTailPart(ns, b, nq);
    CollapseWordThen(a, Dashes(ns) + (b + Dashes(nq)));
  }

  lemma CollapseWords(np: nat, a: string, ns: nat, b: string, nq: nat)
    requires IsInnerLabel(a) && IsInnerLabel(b) && ns >= 1
    ensures CollapseDashes(Dashes(np) + a + Dashes(ns) + b + Dashes(nq))
            == OptDash(np) + a + "-" + b + OptDash(nq)
  {
    var t := a + (Dashes(ns) + (b + Dashes(nq)));
    CollapseMidPart(a, ns, b, nq);
    assert t[0] == a[0];
    CollapseRunThen(np, t);
    assert Dashes(np) + a + Dashes(ns) + b + Dashes(nq) == Dashes(np) + t;
  }

  lemma TrimDashedWords(np: nat, a: string, b: string, nq: nat)
    requires IsInnerLabel(a) && IsInnerLabel(b)
    ensures TrimDashes(OptDash(np) + a + "-" + b + OptDash(nq)) == a + "-" + b
  {
    var c := OptDash(np) + a + "-" + b + OptDash(nq);
    var t := a + "-" + b + OptDash(nq);
    assert (if |c| > 0 && c[0] == '-' then c[1..] else c) == t by {
      if np > 0 { assert c == "-" + t; } else { assert c == t; }
    }
    assert (if |t| > 0 && t[|t| - 1] == '-' then t[..|t| - 1] else t) == a + "-" + b by {
      if nq > 0 { assert t == (a + "-" + b) + "-"; } else { assert t == a + "-" + b; }
    }
  }

  /**
   * Two words separated by any non-empty filler, with any filler before and
   * after, become the two lower-cased words joined by a single dash.
   */
  lemma SanitizeJoinsWords(pre: string, a: string, sep: string, b: string, post: string)
    requires IsFiller(pre) && IsWord(a) && IsFiller(sep) && sep != [] && IsWord(b) && IsFiller(post)
    ensures Sanitize(pre + a + sep + b + post) == Lower(a) + "-" + Lower(b)
  {
    var A, B := Lower(a), Lower(b);
    LowerDashifyFiller(pre);
    LowerDashifyFiller(sep);
    LowerDashifyFiller(post);
    LowerDashifyWord(a);
    LowerDashifyWord(b);
    DashifyLowerAppend(pre + a + sep + b, post);
    DashifyLowerAppend(pre + a + sep, b);
    DashifyLowerAppend(pre + a, sep);
    DashifyLowerAppend(pre, a);
    CollapseWords(|pre|, A, |sep|, B, |post|);
    TrimDashedWords(|pre|, A, B, |post|);
  }

  /** The two renamings the dialog is documented to perform. */
  lemma ExampleMySite()
    ensures Sanitize("My Site!!") == "my-site"
  {
    var pre, a, sep, b, post := "", "My", " ", "Site", "!!";
    assert IsWord(a) && IsWord(b) && IsFiller(sep) && IsFiller(post) && IsFiller(pre);
    assert pre + a + sep + b + post == "My Site!!";
    SanitizeJoinsWords(pre, a, sep, b, post);
    assert Lower(a) == "my" && Lower(b) == "site";
  }

  lemma ExampleFooBar()
    ensures Sanitize("--Foo--Bar--") == "foo-bar"
  {
    var pre, a, sep, b, post := "--", "Foo", "--", "Bar", "--";
    assert IsWord(a) && IsWord(b) && IsFiller(sep) && IsFiller(post) && IsFiller(pre);
    assert pre + a + sep + b + post == "--Foo--Bar--";
    SanitizeJoinsWords(pre, a, sep, b, post);
    assert Lower(a) == "foo" && Lower(b) == "bar";
  }
}
