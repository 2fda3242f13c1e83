/**
 * The output parsers: the accounts of `wrangler whoami --json`, the rows of
 * `wrangler pages project list`, and the framework hint read from `package.json`.
 */
module Parsing {
  import opened Wrappers
  import opened Text
  import opened Domain

  // ---------------------------------------------------------------------------
  // `wrangler whoami --json`
  // ---------------------------------------------------------------------------

  /**
   * One element of the decoded `accounts` array: `null`, or a value whose `id`
   * and `name` are strings or absent (a number or a nested array reads as an
   * element with neither).
   */
  datatype Entry = Nullish | Obj(id: Option<string>, name: Option<string>)

  datatype AccountsField = NotAnArray | AnArray(entries: seq<Entry>)

  /** The readback after `JSON.parse`: text that fails to parse (or decodes to `null`), or a document. */
  datatype WhoamiDoc = Unparseable | Parsed(accounts: AccountsField)

  /** What `JSON.parse` makes of the texts the model meets; any other text fails to parse. */
  type JsonTable = map<string, WhoamiDoc>

  function JsonParse(table: JsonTable, text: string): WhoamiDoc {
    if text in table then table[text] else Unparseable
  }

  /** The filter `a.id && a.name`. */
  predicate Usable(e: Entry) {
    e.Obj? && Truthy(e.id) && Truthy(e.name)
  }

  /** The map `({ name: a.name, id: a.id })`. */
  function AccountOf(e: Entry): Account
    requires Usable(e)
  {
    Account(e.name.value, e.id.value)
  }

  function UsableAccounts(es: seq<Entry>): (r: seq<Account>)
    ensures |r| <= |es|
  {
    if es == [] then []
    else UsableAccounts(es[..|es| - 1]) + (if Usable(es[|es| - 1]) then [AccountOf(es[|es| - 1])] else [])
  }

  /** Reading a `null` element's `id` throws inside the `try`, so such an array yields no accounts. */
  predicate HasNullish(es: seq<Entry>) {
    exists k :: 0 <= k < |es| && es[k].Nullish?
  }

  /** `parseWhoamiJson`: never fails, and never yields more accounts than the array has entries. */
  function ParseWhoami(doc: WhoamiDoc): (r: seq<Account>)
    ensures doc.Parsed? && doc.accounts.AnArray? ==> |r| <= |doc.accounts.entries|
  {
    match doc
    case Unparseable => []
    case Parsed(NotAnArray) => []
    case Parsed(AnArray(es)) => if HasNullish(es) then [] else UsableAccounts(es)
  }

  /** A parse failure or a missing/non-array `accounts` yields no accounts. */
  lemma MalformedYieldsNoAccounts(doc: WhoamiDoc)
    requires doc.Unparseable? || doc.accounts.NotAnArray?
    ensures ParseWhoami(doc) == []
  {
  }

  /** The positions of the usable entries, in order. */
  function UsableIndices(es: seq<Entry>): (idx: seq<nat>)
  {
    if es == [] then []
    else UsableIndices(es[..|es| - 1]) + (if Usable(es[|es| - 1]) then [|es| - 1] else [])
  }

  /**
   * The accounts are exactly the usable entries, mapped, in input order: the
   * k-th account comes from the k-th usable position, positions increase, and
   * every usable entry is among them.
   */
  lemma {:induction false} AccountsAreUsableSubsequence(es: seq<Entry>)
    ensures var r, idx := UsableAccounts(es), UsableIndices(es);
      && |idx| == |r|
      && (forall k :: 0 <= k < |idx| ==> idx[k] < |es| && Usable(es[idx[k]]) && r[k] == AccountOf(es[idx[k]]))
      && (forall k, l :: 0 <= k < l < |idx| ==> idx[k] < idx[l])
      && (forall i :: 0 <= i < |es| && Usable(es[i]) ==> i in idx)
  {
    if es != [] {
      var n := |es| - 1;
      var init := es[..n];
      AccountsAreUsableSubsequence(init);
      var r0, idx0 := UsableAccounts(init), UsableIndices(init);
      assert forall i :: 0 <= i < n ==> init[i] == es[i];
      if Usable(es[n]) {
        assert UsableAccounts(es) == r0 + [AccountOf(es[n])];
        assert UsableIndices(es) == idx0 + [n];
      } else {
        assert UsableAccounts(es) == r0;
        assert UsableIndices(es) == idx0;
      }
    }
  }

  /** Entries missing a field drop out without shifting the others. */
  lemma {:induction false} UsableAccountsAppend(a: seq<Entry>, b: seq<Entry>)
    ensures UsableAccounts(a + b) == UsableAccounts(a) + UsableAccounts(b)
    decreases |b|
  {
    if b == [] {
      assert a + b == a;
    } else {
      var b' := b[..|b| - 1];
      assert (a + b)[..|a + b| - 1] == a + b';
      UsableAccountsAppend(a, b');
    }
  }

  /** When every entry has both fields, every entry becomes an account, in order. */
  lemma {:induction false} AllUsableAllKept(es: seq<Entry>)
    requires forall k :: 0 <= k < |es| ==> Usable(es[k])
    ensures |UsableAccounts(es)| == |es|
    ensures forall k :: 0 <= k < |es| ==> UsableAccounts(es)[k] == AccountOf(es[k])
  {
    if es != [] {
      var init := es[..|es| - 1];
      AllUsableAllKept(init);
    }
  }

  // ---------------------------------------------------------------------------
  // `wrangler pages project list`, scraped with
  //   /│\s*(.+?)\s*│\s*(\S+\.pages\.dev)\s*│/
  // The functions below follow the regular expression's backtracking order:
  // candidates start at each `│` from the left; the first `\s*` is greedy, so
  // group 1 starts at the first non-space; group 1 is lazy, so the shortest
  // one (made of characters `.` accepts) whose tail matches wins; the tail's
  // `\s*` are forced; `\S+` is greedy, so the longest host wins.
  // ---------------------------------------------------------------------------

  const BAR: char := 0x2502 as char
  const PAGES_DEV := ".pages.dev"

  /** `\s*│` matches at `q`. */
  predicate BarAfterSpaces(line: string, q: nat)
    requires q <= |line|
  {
    var a := SkipSpaces(line, q);
    a < |line| && line[a] == BAR
  }

  /** `\.pages\.dev` ends at `j`, compared character by character. */
  predicate PagesDevEndsAt(line: string, j: nat)
    requires j <= |line|
  {
    && 10 <= j
    && line[j - 10] == '.' && line[j - 9] == 'p' && line[j - 8] == 'a' && line[j - 7] == 'g'
    && line[j - 6] == 'e' && line[j - 5] == 's' && line[j - 4] == '.' && line[j - 3] == 'd'
    && line[j - 2] == 'e' && line[j - 1] == 'v'
  }

  /** `j` can end group 2 (`\S+\.pages\.dev`) started at `r` and be followed by `\s*│`. */
  predicate HostEndsAt(line: string, r: nat, j: nat)
    requires j <= |line|
  {
    r + 11 <= j && PagesDevEndsAt(line, j) && BarAfterSpaces(line, j)
  }

  /** The largest end of group 2 at or below `j` (greedy `\S+` backing off). */
  function HostEndDown(line: string, r: nat, j: nat): (e: Option<nat>)
    requires j <= |line|
    ensures e.Some? ==> r + 11 <= e.value <= j
    decreases j
  {
    if j < r + 11 then None
    else if HostEndsAt(line, r, j) then Some(j)
    else HostEndDown(line, r, j - 1)
  }

  /** A host is made of non-spaces, so it ends at the latest where the non-space run from `r` ends. */
  function HostEnd(line: string, r: nat): (e: Option<nat>)
    requires r <= |line|
    ensures e.Some? ==> r + 11 <= e.value <= |line|
  {
    HostEndDown(line, r, RunEnd(line, r))
  }

  /** The tail `\s*│\s*(\S+\.pages\.dev)\s*│` tried at `q`: the bounds of group 2. */
  function TailAt(line: string, q: nat): (t: Option<(nat, nat)>)
    requires q <= |line|
    ensures t.Some? ==> q <= t.value.0 < t.value.1 <= |line|
  {
    var a := SkipSpaces(line, q);
    if a < |line| && line[a] == BAR then
      var r := SkipSpaces(line, a + 1);
      var e := HostEnd(line, r);
      if e.Some? then Some((r, e.value)) else None
    else None
  }

  /** Lazy group 1 from `s0`: the smallest end `g` (at least `g`) whose tail matches. */
  function LazyGroup(line: string, s0: nat, g: nat): (m: Option<(nat, (nat, nat))>)
    requires s0 < g && s0 <= |line|
    ensures m.Some? ==> g <= m.value.0 <= |line| && m.value.0 <= m.value.1.0 < m.value.1.1 <= |line|
    decreases |line| + 1 - g
  {
    if g > LineEnd(line, s0) then None
    else
      var t := TailAt(line, g);
      if t.Some? then Some((g, t.value)) else LazyGroup(line, s0, g + 1)
  }

  lemma {:induction false} HostEndDownFound(line: string, r: nat, j: nat)
    requires j <= |line| && HostEndDown(line, r, j).Some?
    ensures HostEndDown(line, r, j).value <= j && HostEndsAt(line, r, HostEndDown(line, r, j).value)
    decreases j
  {
    if !HostEndsAt(line, r, j) {
      HostEndDownFound(line, r, j - 1);
    }
  }

  /** A found tail: group 2 lies in the non-space run at `r`, ends in `.pages.dev` and is followed by `\s*│`. */
  lemma TailAtFound(line: string, q: nat)
    requires q <= |line| && TailAt(line, q).Some?
    ensures var r, j := TailAt(line, q).value.0, TailAt(line, q).value.1;
      && SkipSpaces(line, q) < |line| && line[SkipSpaces(line, q)] == BAR
      && r == SkipSpaces(line, SkipSpaces(line, q) + 1)
      && j <= |line| && j <= RunEnd(line, r) && HostEndsAt(line, r, j)
  {
    var a := SkipSpaces(line, q);
    var r := SkipSpaces(line, a + 1);
    HostEndDownFound(line, r, RunEnd(line, r));
  }

  lemma {:induction false} LazyGroupFound(line: string, s0: nat, g: nat)
    requires s0 < g && s0 <= |line| && LazyGroup(line, s0, g).Some?
    ensures var m := LazyGroup(line, s0, g).value;
      g <= m.0 <= LineEnd(line, s0) && TailAt(line, m.0) == Some(m.1)
    decreases |line| + 1 - g
  {
    if TailAt(line, g).None? {
      LazyGroupFound(line, s0, g + 1);
    }
  }

  /** The last position in `[lo, hi)` whose character `.` accepts. */
  function LastDotChar(line: string, lo: nat, hi: nat): (t: Option<nat>)
    requires hi <= |line|
    ensures t.Some? ==> lo <= t.value < hi && !IsLineTerminator(line[t.value])
    decreases hi
  {
    if hi <= lo then None
    else if !IsLineTerminator(line[hi - 1]) then Some(hi - 1)
    else LastDotChar(line, lo, hi - 1)
  }

  /**
   * The match attempt at the `│` at `p`: groups 1 and 2. When no group 1
   * starting at the first non-space works, the leading `\s*` backs off and a
   * single space character becomes group 1.
   */
  function MatchAt(line: string, p: nat): Option<(string, string)>
    requires p < |line| && line[p] == BAR
  {
    var s0 := SkipSpaces(line, p + 1);
    var lazy := LazyGroup(line, s0, s0 + 1);
    if lazy.Some? then Some((line[s0..lazy.value.0], line[lazy.value.1.0..lazy.value.1.1]))
    else BackedOff(line, p, s0)
  }

  /** The attempt in which group 1 is the last space character `.` accepts before `s0`. */
  function BackedOff(line: string, p: nat, s0: nat): Option<(string, string)>
    requires p + 1 <= s0 <= |line|
  {
    var t := LastDotChar(line, p + 1, s0);
    var tail := TailAt(line, s0);
    if t.Some? && tail.Some? then Some((line[t.value..t.value + 1], line[tail.value.0..tail.value.1]))
    else None
  }

  /** `line.match(...)`: the leftmost `│` at which an attempt succeeds. */
  function MatchFrom(line: string, p: nat): Option<(string, string)>
    decreases |line| - p
  {
    if p >= |line| then None
    else if line[p] == BAR && MatchAt(line, p).Some? then MatchAt(line, p)
    else MatchFrom(line, p + 1)
  }

  function MatchRow(line: string): Option<(string, string)> {
    MatchFrom(line, 0)
  }

  /** The record pushed for one line: both groups trimmed. */
  function RowRecord(line: string): Option<Project> {
    var m := MatchRow(line);
    if m.Some? then Some(Project(Trim(m.value.0), Trim(m.value.1))) else None
  }

  /** A `*.pages.dev` host name: non-spaces ending in `.pages.dev`, with at least one character before it. */
  predicate IsPagesHost(h: string) {
    |h| > |PAGES_DEV| && NoSpace(h) && PagesDevEndsAt(h, |h|)
  }

  lemma PagesHostEndsWith(h: string)
    requires IsPagesHost(h)
    ensures EndsWith(h, PAGES_DEV)
  {
  }

  predicate IsWellFormed(p: Project) {
    IsTrimmed(p.name) && IsPagesHost(p.subdomain)
  }

  lemma HostIsTrimmed(h: string)
    requires IsPagesHost(h)
    ensures Trim(h) == h
  {
  }

  /** The characters between `r` and `j` spell a host name. */
  lemma HostSlice(line: string, r: nat, j: nat)
    requires r <= j <= |line| && j <= RunEnd(line, r) && HostEndsAt(line, r, j)
    ensures IsPagesHost(line[r..j])
  {
    var h := line[r..j];
    assert forall k :: 0 <= k < |h| ==> h[k] == line[r + k];
  }

  lemma {:induction false} MatchFromFindsBar(line: string, p: nat) returns (q: nat)
    requires MatchFrom(line, p).Some?
    ensures p <= q < |line| && line[q] == BAR && MatchAt(line, q) == MatchFrom(line, p)
    decreases |line| - p
  {
    if line[p] == BAR && MatchAt(line, p).Some? {
      q := p;
    } else {
      q := MatchFromFindsBar(line, p + 1);
    }
  }

  /** Group 2 of any match is a `*.pages.dev` host name. */
  lemma MatchAtHost(line: string, p: nat)
    requires p < |line| && line[p] == BAR && MatchAt(line, p).Some?
    ensures IsPagesHost(MatchAt(line, p).value.1)
  {
    var u, v, a, r, j, k := MatchAtFrame(line, p);
    HostSlice(line, r, j);
  }

  /** Every record has a trimmed name and a `*.pages.dev` host. */
  lemma RowRecordWellFormed(line: string)
    requires RowRecord(line).Some?
    ensures IsWellFormed(RowRecord(line).value)
  {
    var q := MatchFromFindsBar(line, 0);
    MatchAtHost(line, q);
    HostIsTrimmed(MatchRow(line).value.1);
  }

  /** The records pushed for `lines`, in line order (what the loop in `parseProjectList` builds). */
  function ProjectsOfLines(lines: seq<string>): seq<Project>
  {
    if lines == [] then []
    else
      var r := RowRecord(lines[|lines| - 1]);
      ProjectsOfLines(lines[..|lines| - 1]) + (if r.Some? then [r.value] else [])
  }

  /** `parseProjectList(stdout)`. */
  method ParseProjectList(stdout: string) returns (projects: seq<Project>)
    ensures projects == ProjectsOfLines(SplitLines(stdout))
    ensures |projects| <= |SplitLines(stdout)|
    ensures forall k :: 0 <= k < |projects| ==> IsWellFormed(projects[k])
  {
    projects := [];
    var lines := SplitLines(stdout);
    for i := 0 to |lines|
      invariant projects == ProjectsOfLines(lines[..i])
    {
      ProjectsOfPrefix(lines, i);
      var m := MatchRow(lines[i]);
      if m.Some? {
        projects := projects + [Project(Trim(m.value.0), Trim(m.value.1))];
      }
    }
    assert lines[..|lines|] == lines;
    ProjectsOfLinesWellFormed(lines);
  }

  /** At most one record per line, and every record well formed. */
  lemma {:induction false} ProjectsOfLinesWellFormed(lines: seq<string>)
    ensures |ProjectsOfLines(lines)| <= |lines|
    ensures forall k :: 0 <= k < |ProjectsOfLines(lines)| ==> IsWellFormed(ProjectsOfLines(lines)[k])
    decreases |lines|
  {
    if lines != [] {
      var last := lines[|lines| - 1];
      ProjectsOfLinesWellFormed(lines[..|lines| - 1]);
      if RowRecord(last).Some? {
        RowRecordWellFormed(last);
      }
    }
  }

  lemma ProjectsOfPrefix(lines: seq<string>, i: nat)
    requires i < |lines|
    ensures var r := RowRecord(lines[i]);
      ProjectsOfLines(lines[..i + 1]) == ProjectsOfLines(lines[..i]) + (if r.Some? then [r.value] else [])
  {
    assert lines[..i + 1][..i] == lines[..i];
  }

  /** The records of a listing are those of its parts, in order. */
  lemma {:induction false} ProjectsOfLinesAppend(a: seq<string>, b: seq<string>)
    ensures ProjectsOfLines(a + b) == ProjectsOfLines(a) + ProjectsOfLines(b)
    decreases |b|
  {
    if b == [] {
      assert a + b == a;
    } else {
      var b' := b[..|b| - 1];
      assert (a + b)[..|a + b| - 1] == a + b';
      ProjectsOfLinesAppend(a, b');
    }
  }

  /** One line yields at most one record: its own. */
  lemma ProjectsOfOneLine(line: string)
    ensures ProjectsOfLines([line]) == if RowRecord(line).Some? then [RowRecord(line).value] else []
  {
    assert [line][..0] == [];
  }

  /** A line with no `│` at all (a border, a blank line) contributes nothing. */
  lemma {:induction false} NoBarNoRow(line: string, p: nat)
    requires forall k :: p <= k < |line| ==> line[k] != BAR
    ensures MatchFrom(line, p).None?
    decreases |line| - p
  {
    if p < |line| { NoBarNoRow(line, p + 1); }
  }

  // --- what a matched row looks like ---------------------------------------

  lemma {:induction false} TrimStartBlankPrefix(pre: string, y: string)
    requires IsBlank(pre)
    ensures TrimStart(pre + y) == TrimStart(y)
    decreases |pre|
  {
    if pre != [] {
      assert IsBlank(pre[1..]) by { assert forall k :: 0 <= k < |pre| - 1 ==> pre[1..][k] == pre[k + 1]; }
      assert (pre + y)[0] == pre[0];
      assert (pre + y)[1..] == pre[1..] + y;
      TrimStartBlankPrefix(pre[1..], y);
    } else {
      assert pre + y == y;
    }
  }

  lemma {:induction false} TrimEndBlankSuffix(y: string, post: string)
    requires IsBlank(post)
    ensures TrimEnd(y + post) == TrimEnd(y)
    decreases |post|
  {
    if post != [] {
      var post' := post[..|post| - 1];
      assert (y + post)[..|y + post| - 1] == y + post';
      TrimEndBlankSuffix(y, post');
    } else {
      assert y + post == y;
    }
  }

  lemma {:induction false} TrimStartKeepsTail(x: string, post: string)
    requires !IsBlank(x)
    ensures TrimStart(x + post) == TrimStart(x) + post
    decreases |x|
  {
    if IsSpace(x[0]) {
      assert (x + post)[1..] == x[1..] + post;
      assert !IsBlank(x[1..]) by {
        var k :| 0 <= k < |x| && !IsSpace(x[k]);
        assert x[1..][k - 1] == x[k];
      }
      TrimStartKeepsTail(x[1..], post);
    }
  }

  /** Spaces around `x` do not change `x.trim()`. */
  lemma TrimPadded(pre: string, x: string, post: string)
    requires IsBlank(pre) && IsBlank(post)
    ensures Trim(pre + x + post) == Trim(x)
  {
    var s := pre + x + post;
    if IsBlank(x) {
      assert IsBlank(s) by {
        forall k | 0 <= k < |s| ensures IsSpace(s[k]) {
          if k < |pre| { assert s[k] == pre[k]; }
          else if k < |pre| + |x| { assert s[k] == x[k - |pre|]; }
          else { assert s[k] == post[k - |pre| - |x|]; }
        }
      }
    } else {
      assert s == pre + (x + post);
      TrimStartBlankPrefix(pre, x + post);
      TrimStartKeepsTail(x, post);
      TrimEndBlankSuffix(TrimStart(x), post);
    }
  }

  /**
   * The frame of a table row around `pr`: bars at `p`, `a` and `k`; the name
   * is the trimmed text between the first two; the host sits between the
   * second and third with only spaces around it.
   */
  predicate Frames(line: string, pr: Project, p: nat, a: nat, r: nat, j: nat, k: nat) {
    && p < a < r < j <= k < |line|
    && line[p] == BAR && line[a] == BAR && line[k] == BAR
    && pr.name == Trim(line[p + 1..a])
    && pr.subdomain == line[r..j]
    && IsBlank(line[a + 1..r]) && IsBlank(line[j..k])
  }

  /** The same frame with group 1 at `[u, v)` inside spaces, before any trimming. */
  predicate RawFrame(line: string, p: nat, u: nat, v: nat, a: nat, r: nat, j: nat, k: nat) {
    && p < u <= v <= a < r < j <= k < |line|
    && line[p] == BAR && line[a] == BAR && line[k] == BAR
    && IsBlank(line[p + 1..u]) && IsBlank(line[v..a])
    && IsBlank(line[a + 1..r]) && IsBlank(line[j..k])
  }

  lemma TailFrame(line: string, q: nat, r: nat, j: nat) returns (a: nat, k: nat)
    requires q <= |line| && TailAt(line, q) == Some((r, j))
    ensures q <= a < r < j <= k < |line| && IsBlank(line[q..a])
    ensures line[a] == BAR && line[k] == BAR && IsBlank(line[a + 1..r]) && IsBlank(line[j..k])
    ensures j <= RunEnd(line, r) && HostEndsAt(line, r, j)
  {
    TailAtFound(line, q);
    a := SkipSpaces(line, q);
    k := SkipSpaces(line, j);
    BlankSlice(line, q, a);
    BlankSlice(line, a + 1, r);
    BlankSlice(line, j, k);
  }

  lemma BlankSlice(line: string, lo: nat, hi: nat)
    requires lo <= hi <= |line|
    requires forall i :: lo <= i < hi ==> IsSpace(line[i])
    ensures IsBlank(line[lo..hi])
  {
    assert forall i :: 0 <= i < hi - lo ==> line[lo..hi][i] == line[lo + i];
  }

  /** A successful attempt at `p` lays out as a raw frame whose groups are the matched ones. */
  lemma MatchAtFrame(line: string, p: nat) returns (u: nat, v: nat, a: nat, r: nat, j: nat, k: nat)
    requires p < |line| && line[p] == BAR && MatchAt(line, p).Some?
    ensures RawFrame(line, p, u, v, a, r, j, k)
    ensures MatchAt(line, p).value == (line[u..v], line[r..j])
    ensures j <= RunEnd(line, r) && HostEndsAt(line, r, j)
  {
    var s0 := SkipSpaces(line, p + 1);
    var lazy := LazyGroup(line, s0, s0 + 1);
    if lazy.Some? {
      MatchAtLazy(line, p, s0, lazy.value);
      u, v, a, r, j, k := LazyRawFrame(line, p, s0);
    } else {
      MatchAtBackedOff(line, p, s0);
      u, v, a, r, j, k := BackedOffRawFrame(line, p, s0);
    }
  }

  lemma LazyRawFrame(line: string, p: nat, s0: nat) returns (u: nat, v: nat, a: nat, r: nat, j: nat, k: nat)
    requires p < |line| && line[p] == BAR && s0 == SkipSpaces(line, p + 1)
    requires LazyGroup(line, s0, s0 + 1).Some?
    ensures var lazy := LazyGroup(line, s0, s0 + 1).value;
      u == s0 && v == lazy.0 && r == lazy.1.0 && j == lazy.1.1
    ensures RawFrame(line, p, u, v, a, r, j, k)
    ensures j <= RunEnd(line, r) && HostEndsAt(line, r, j)
  {
    LazyGroupFound(line, s0, s0 + 1);
    BlankSlice(line, p + 1, s0);
    var lazy := LazyGroup(line, s0, s0 + 1).value;
    u, v := s0, lazy.0;
    r, j := lazy.1.0, lazy.1.1;
    a, k := TailFrame(line, v, r, j);
  }

  lemma BackedOffRawFrame(line: string, p: nat, s0: nat) returns (u: nat, v: nat, a: nat, r: nat, j: nat, k: nat)
    requires p < |line| && line[p] == BAR && s0 == SkipSpaces(line, p + 1)
    requires BackedOff(line, p, s0).Some?
    ensures RawFrame(line, p, u, v, a, r, j, k)
    ensures BackedOff(line, p, s0) == Some((line[u..v], line[r..j]))
    ensures j <= RunEnd(line, r) && HostEndsAt(line, r, j)
  {
    u := LastDotChar(line, p + 1, s0).value;
    v := u + 1;
    var tail := TailAt(line, s0).value;
    r, j := tail.0, tail.1;
    a, k := TailFrame(line, s0, r, j);
    BlankSlice(line, p + 1, u);
    BlankSlice(line, v, a);
  }

  lemma LazyFrameName(line: string, p: nat, u: nat, v: nat, a: nat)
    requires p + 1 <= u <= v <= a <= |line|
    requires IsBlank(line[p + 1..u]) && IsBlank(line[v..a])
    ensures Trim(line[p + 1..a]) == Trim(line[u..v])
  {
    assert line[p + 1..a] == line[p + 1..u] + line[u..v] + line[v..a];
    TrimPadded(line[p + 1..u], line[u..v], line[v..a]);
  }

  /** Soundness: a line yields a record only when it has the `│ name │ host │` frame. */
  lemma RowHasFrame(line: string, pr: Project)
    requires RowRecord(line) == Some(pr)
    ensures exists p, a, r, j, k :: Frames(line, pr, p, a, r, j, k)
  {
    var p := MatchFromFindsBar(line, 0);
    var u, v, a, r, j, k := MatchAtFrame(line, p);
    MatchAtHost(line, p);
    HostIsTrimmed(line[r..j]);
    LazyFrameName(line, p, u, v, a);
    assert Frames(line, pr, p, a, r, j, k);
  }

  // --- what a table row yields ----------------------------------------------

  lemma LazyGroupStep(line: string, s0: nat, g: nat)
    requires s0 < g && s0 <= |line| && g <= LineEnd(line, s0)
    requires TailAt(line, g).None?
    ensures LazyGroup(line, s0, g) == LazyGroup(line, s0, g + 1)
  {
  }

  /** A cell's text: non-empty, trimmed, with no `│` and no line terminator. */
  predicate IsCellText(name: string) {
    && name != [] && IsTrimmed(name)
    && forall k :: 0 <= k < |name| ==> name[k] != BAR && !IsLineTerminator(name[k])
  }

  /** The padding wrangler adds to fill a column: spaces only. */
  predicate IsPadding(s: string) {
    forall k :: 0 <= k < |s| ==> s[k] == ' '
  }

  /** Only spaces in `[lo, hi)`. */
  predicate PaddedBetween(line: string, lo: nat, hi: nat) {
    forall i :: lo <= i < hi && i < |line| ==> line[i] == ' '
  }

  /** `x` is spelled in `line` from `lo`. */
  predicate SpelledAt(line: string, x: string, lo: nat) {
    lo + |x| <= |line| && forall i :: 0 <= i < |x| ==> line[lo + i] == x[i]
  }

  /** From the middle `│` at `d`: padding, the host at `r`, padding, the closing `│` at `e`. */
  predicate HostCell(line: string, host: string, d: nat, r: nat, e: nat) {
    && d < r && r + |host| < e < |line| && line[d] == BAR && line[e] == BAR
    && PaddedBetween(line, d + 1, r) && SpelledAt(line, host, r) && PaddedBetween(line, r + |host|, e)
  }

  /**
   * `line` is laid out as a padded row `│ name │ host │…`: the name starts at
   * `b`, the middle `│` is at `d`, the host starts at `r`, and the closing `│`
   * is at `e`, with only spaces in between.
   */
  predicate IsPaddedRow(line: string, name: string, host: string, b: nat, d: nat, r: nat, e: nat) {
    && HostCell(line, host, d, r, e)
    && 1 <= b && b + |name| <= d && line[0] == BAR
    && PaddedBetween(line, 1, b) && SpelledAt(line, name, b) && PaddedBetween(line, b + |name|, d)
  }

  lemma RowLayout(s1: string, name: string, s2: string, s3: string, host: string, s4: string, rest: string)
    requires IsPadding(s1) && IsPadding(s2) && IsPadding(s3) && IsPadding(s4) && s4 != []
    ensures var b := 1 + |s1|;
      var d := b + |name| + |s2|;
      var r := d + 1 + |s3|;
      IsPaddedRow([BAR] + s1 + name + s2 + [BAR] + s3 + host + s4 + [BAR] + rest,
                  name, host, b, d, r, r + |host| + |s4|)
  {
  }

  /** `\s*` runs over spaces up to the first non-space at `j`. */
  lemma {:induction false} SkipsTo(line: string, i: nat, j: nat)
    requires i <= j < |line| && !IsSpace(line[j]) && PaddedBetween(line, i, j)
    ensures SkipSpaces(line, i) == j
    decreases j - i
  {
    if i < j {
      assert IsSpace(line[i]);
      SkipsTo(line, i + 1, j);
    }
  }

  lemma RunEndIs(line: string, r: nat, j: nat)
    requires r <= j < |line| && IsSpace(line[j])
    requires forall i :: r <= i < j ==> !IsSpace(line[i])
    ensures RunEnd(line, r) == j
  {
  }

  lemma PagesDevInLine(line: string, lo: nat, host: string)
    requires SpelledAt(line, host, lo) && IsPagesHost(host)
    ensures PagesDevEndsAt(line, lo + |host|)
  {
  }

  lemma SliceIs(line: string, lo: nat, x: string)
    requires SpelledAt(line, x, lo)
    ensures line[lo..lo + |x|] == x
  {
  }

  /** Group 2 is the whole host: its non-space run stops at the padding, which leads to the closing `│`. */
  lemma PaddedHost(line: string, host: string, d: nat, r: nat, e: nat)
    requires HostCell(line, host, d, r, e) && IsPagesHost(host)
    ensures HostEnd(line, r) == Some(r + |host|)
  {
    var j := r + |host|;
    forall i | r <= i < j ensures !IsSpace(line[i]) {
      assert line[i] == host[i - r];
    }
    assert line[j] == ' ';
    RunEndIs(line, r, j);
    SkipsTo(line, j, e);
    PagesDevInLine(line, r, host);
    assert HostEndsAt(line, r, j);
  }

  /** The tail matches right after the name: padding, `│`, padding, the host. */
  lemma PaddedTail(line: string, c: nat, host: string, d: nat, r: nat, e: nat)
    requires c <= d && PaddedBetween(line, c, d) && HostCell(line, host, d, r, e) && IsPagesHost(host)
    ensures TailAt(line, c) == Some((r, r + |host|))
  {
    SkipsTo(line, c, d);
    assert line[r] == host[0];
    SkipsTo(line, d + 1, r);
    PaddedHost(line, host, d, r, e);
  }

  /** Inside the name the tail cannot match: the next non-space is a name character, not `│`. */
  lemma NameCharAhead(line: string, name: string, b: nat, g: nat)
    requires SpelledAt(line, name, b) && IsCellText(name)
    requires b < g < b + |name|
    ensures TailAt(line, g).None?
  {
    var last := b + |name| - 1;
    assert line[last] == name[|name| - 1];
    var a := SkipSpaces(line, g);
    assert a <= last;
    assert line[a] == name[a - b];
  }

  /** Group 1 grows past every position inside the name, so it is what it is at the name's end. */
  lemma {:induction false} NameGroupSkips(line: string, name: string, b: nat, g: nat, m: Option<(nat, (nat, nat))>)
    requires SpelledAt(line, name, b) && IsCellText(name)
    requires b + |name| <= LineEnd(line, b)
    requires b < g <= b + |name| && LazyGroup(line, b, b + |name|) == m
    ensures LazyGroup(line, b, g) == m
    decreases b + |name| - g
  {
    if g < b + |name| {
      NameCharAhead(line, name, b, g);
      LazyGroupStep(line, b, g);
      NameGroupSkips(line, name, b, g + 1, m);
    }
  }

  /** `.` accepts every character of the name. */
  lemma NameOnOneLine(line: string, name: string, b: nat)
    requires SpelledAt(line, name, b) && IsCellText(name)
    ensures b + |name| <= LineEnd(line, b)
  {
    forall i | b <= i < b + |name| ensures !IsLineTerminator(line[i]) {
      assert line[i] == name[i - b];
    }
  }

  /** The lazy group 1 ends exactly where the name ends, when the tail matches there. */
  lemma NameGroup(line: string, name: string, b: nat, t: (nat, nat))
    requires SpelledAt(line, name, b) && IsCellText(name)
    requires TailAt(line, b + |name|) == Some(t)
    ensures LazyGroup(line, b, b + 1) == Some((b + |name|, t))
  {
    var c := b + |name|;
    NameOnOneLine(line, name, b);
    var m := Some((c, t));
    assert LazyGroup(line, b, c) == m;
    NameGroupSkips(line, name, b, b + 1, m);
  }

  /** The attempt at `p` when the lazy group 1 from the first non-space succeeds. */
  lemma MatchAtLazy(line: string, p: nat, s0: nat, m: (nat, (nat, nat)))
    requires p < |line| && line[p] == BAR && s0 == SkipSpaces(line, p + 1)
    requires LazyGroup(line, s0, s0 + 1) == Some(m)
    ensures MatchAt(line, p) == Some((line[s0..m.0], line[m.1.0..m.1.1]))
  {
  }

  lemma MatchAtBackedOff(line: string, p: nat, s0: nat)
    requires p < |line| && line[p] == BAR && s0 == SkipSpaces(line, p + 1)
    requires LazyGroup(line, s0, s0 + 1).None?
    ensures MatchAt(line, p) == BackedOff(line, p, s0)
  {
  }

  lemma PaddedMatch(line: string, name: string, host: string, b: nat, d: nat, r: nat, e: nat)
    requires IsPaddedRow(line, name, host, b, d, r, e) && IsCellText(name) && IsPagesHost(host)
    ensures MatchRow(line) == Some((name, host))
  {
    assert line[b] == name[0];
    SkipsTo(line, 1, b);
    PaddedTail(line, b + |name|, host, d, r, e);
    NameGroup(line, name, b, (r, r + |host|));
    MatchOfCells(line, name, host, b, r);
  }

  /** The groups found at the first `│` spell the two cells. */
  lemma MatchOfCells(line: string, name: string, host: string, b: nat, r: nat)
    requires 0 < |line| && line[0] == BAR && SkipSpaces(line, 1) == b
    requires LazyGroup(line, b, b + 1) == Some((b + |name|, (r, r + |host|)))
    requires SpelledAt(line, name, b) && SpelledAt(line, host, r)
    ensures MatchRow(line) == Some((name, host))
  {
    MatchAtLazy(line, 0, b, (b + |name|, (r, r + |host|)));
    SliceIs(line, b, name);
    SliceIs(line, r, host);
    MatchRowAtStart(line, (name, host));
  }

  /** A line that starts with a `│` at which an attempt succeeds matches there. */
  lemma MatchRowAtStart(line: string, m: (string, string))
    requires 0 < |line| && line[0] == BAR && MatchAt(line, 0) == Some(m)
    ensures MatchRow(line) == Some(m)
  {
  }

  /**
   * Completeness: a row `│ name │ host │…` padded with spaces to the column
   * widths yields exactly `{name, host}`. The host cell needs at least one
   * space before its closing `│`, as wrangler prints it; without one `\S+`
   * would run on into the rest of the line.
   */
  lemma TableRowYields(s1: string, name: string, s2: string, s3: string, host: string, s4: string, rest: string)
    requires IsPadding(s1) && IsPadding(s2) && IsPadding(s3) && IsPadding(s4) && s4 != []
    requires IsCellText(name) && IsPagesHost(host)
    ensures RowRecord([BAR] + s1 + name + s2 + [BAR] + s3 + host + s4 + [BAR] + rest) == Some(Project(name, host))
  {
    var line := [BAR] + s1 + name + s2 + [BAR] + s3 + host + s4 + [BAR] + rest;
    var b := 1 + |s1|;
    var d := b + |name| + |s2|;
    var r := d + 1 + |s3|;
    RowLayout(s1, name, s2, s3, host, s4, rest);
    PaddedMatch(line, name, host, b, d, r, r + |host| + |s4|);
    HostIsTrimmed(host);
  }

  // ---------------------------------------------------------------------------
  // `detectOutputDir`
  // ---------------------------------------------------------------------------

  /**
   * The framework table, in priority order: the quoted package names that
   * identify a framework in `package.json`, and the folder its build writes.
   */
  const FRAMEWORKS: seq<(seq<string>, string)> := [
    (["\"next\"", "'next'"], "out"),
    (["\"nuxt\"", "'nuxt'"], ".output/public"),
    (["\"vite\"", "\"astro\"", "\"svelte\"", "\"@sveltejs/kit\""], "dist"),
    (["\"react-scripts\""], "build"),
    (["\"gatsby\""], "public")
  ]

  predicate Mentions(pkg: string, markers: seq<string>) {
    exists m :: m in markers && Contains(pkg, m)
  }

  /** The first table row, from `i` on, one of whose markers `pkg` mentions (`|table|` if none). */
  function FirstMentioned(table: seq<(seq<string>, string)>, pkg: string, i: nat): (k: nat)
    requires i <= |table|
    ensures i <= k <= |table|
    ensures k < |table| ==> Mentions(pkg, table[k].0)
    ensures forall l :: i <= l < k ==> !Mentions(pkg, table[l].0)
    decreases |table| - i
  {
    if i == |table| || Mentions(pkg, table[i].0) then i else FirstMentioned(table, pkg, i + 1)
  }

  /** The `if` chain over the lower-cased `package.json` text. */
  function FrameworkDir(pkg: string): Option<string> {
    var k := FirstMentioned(FRAMEWORKS, pkg, 0);
    if k < |FRAMEWORKS| then Some(FRAMEWORKS[k].1) else None
  }

  /**
   * The folder chosen is that of the first row one of whose markers the text
   * mentions, and there is none exactly when it mentions no marker.
   */
  lemma FrameworkDirIsFirstMatch(pkg: string, k: nat)
    requires k < |FRAMEWORKS| && Mentions(pkg, FRAMEWORKS[k].0)
    requires forall l :: 0 <= l < k ==> !Mentions(pkg, FRAMEWORKS[l].0)
    ensures FrameworkDir(pkg) == Some(FRAMEWORKS[k].1)
  {
  }

  lemma NoMarkerNoFramework(pkg: string)
    ensures FrameworkDir(pkg).None? <==> forall k :: 0 <= k < |FRAMEWORKS| ==> !Mentions(pkg, FRAMEWORKS[k].0)
  {
  }

  /** Next wins over everything: a Next project that also uses Vite still builds to `out`. */
  lemma NextTakesPriority(pkg: string)
    requires Contains(pkg, "\"next\"")
    ensures FrameworkDir(pkg) == Some("out")
  {
    assert Mentions(pkg, FRAMEWORKS[0].0) by { assert "\"next\"" in FRAMEWORKS[0].0; }
  }

  /** The text is lower-cased first, so a marker written in any case still selects a folder. */
  lemma AnyCaseIsDetected(raw: string, written: string, k: nat)
    requires k < |FRAMEWORKS| && Lower(written) in FRAMEWORKS[k].0
    requires Contains(raw, written)
    ensures FrameworkDir(Lower(raw)).Some?
  {
    LowerKeepsInfix(raw, written);
    assert Mentions(Lower(raw), FRAMEWORKS[k].0);
  }

  /** The candidate folders tried in order when no framework is recognised, and the final default. */
  const CANDIDATE_DIRS: seq<string> := ["dist", "build", "out", "public"]
  const DEFAULT_DIR: string := "dist"
}
