/**
 * The host's plugin context as the plugin uses it: `shell.exec` answered from
 * a script, and the plugin's key-value `storage`. Every call and write is
 * logged, so contracts can say what was issued and in what order.
 */
module Host {
  import opened Wrappers
  import opened Text
  import opened Domain
  import opened Parsing
  import Flows

  class Context {
    /** The outcomes the shell gives, call by call; a call past the end rejects. */
    const script: seq<Outcome>
    /** What storage held before the plugin ran. */
    ghost const initial: StoredRecord
    var calls: nat
    var trace: seq<Event>
    var storage: StoredRecord

    /** The log accounts for the state: storage holds the last record written, and every call was logged. */
    ghost predicate Valid()
      reads this
    {
      storage == Stored(initial, trace) && calls == Runs(trace)
    }

    /** A fresh shell with nothing issued yet, over the storage contents before the plugin ran. */
    constructor (script: seq<Outcome>, initial: StoredRecord)
      ensures this.script == script && this.initial == initial
      ensures calls == 0 && trace == [] && storage == initial && Valid()
    {
      this.script := script;
      this.initial := initial;
      calls := 0;
      trace := [];
      storage := initial;
    }

    /** `shell.exec(cmd)`: the next scripted outcome, logged. */
    method Exec(cmd: Command) returns (o: Outcome)
      modifies this
      ensures o == Reply(script, old(calls))
      ensures calls == old(calls) + 1 && trace == old(trace) + [Ran(cmd)] && storage == old(storage)
      ensures old(Valid()) ==> Valid()
    {
      o := Reply(script, calls);
      Continues(initial, trace, [Ran(cmd)]);
      trace := trace + [Ran(cmd)];
      calls := calls + 1;
    }

    /** `storage.read()`. */
    method Read() returns (m: StoredRecord)
      ensures m == storage
    {
      m := storage;
    }

    /** `storage.write(m)`: the stored record is replaced, and the write logged. */
    method Write(m: StoredRecord)
      modifies this
      ensures storage == m && trace == old(trace) + [Saved(m)] && calls == old(calls)
      ensures old(Valid()) ==> Valid()
    {
      Continues(initial, trace, [Saved(m)]);
      trace := trace + [Saved(m)];
      storage := m;
    }
  }

  /**
   * `detectOutputDir(shell)`: the framework table over the lower-cased
   * `package.json`, then `test -d` on each candidate in order, then the default.
   */
  method DetectOutputDir(ctx: Context) returns (dir: string)
    modifies ctx
    ensures var r := Flows.DetectDir(ctx.script, old(ctx.calls));
      && dir == r.dir && ctx.trace == old(ctx.trace) + r.events && ctx.storage == old(ctx.storage)
      && ctx.calls == old(ctx.calls) + |r.events|
  {
    ghost var k := ctx.calls;
    var result := ctx.Exec(ReadPackageCmd);
    if Succeeded(result) {
      var fw := FrameworkDir(Lower(result.stdout));
      if fw.Some? {
        return fw.value;
      }
    }
    ghost var c := Flows.Candidates(ctx.script, k + 1, 0);
    assert Flows.DetectDir(ctx.script, k) == Flows.DirStep(c.dir, [Ran(ReadPackageCmd)] + c.events);
    ghost var mid := ctx.trace;
    dir := ProbeCandidates(ctx);
    assert ctx.trace == mid + c.events;
  }

  /** The `for (const dir of candidates)` loop: the first folder whose `test -d` succeeds, else the default. */
  method ProbeCandidates(ctx: Context) returns (dir: string)
    modifies ctx
    ensures var r := Flows.Candidates(ctx.script, old(ctx.calls), 0);
      && dir == r.dir && ctx.trace == old(ctx.trace) + r.events && ctx.storage == old(ctx.storage)
      && ctx.calls == old(ctx.calls) + |r.events|
  {
    ghost var script, k, t0 := ctx.script, ctx.calls, ctx.trace;
    var i := 0;
    while i < |CANDIDATE_DIRS|
      invariant 0 <= i <= |CANDIDATE_DIRS|
      invariant ctx.calls == k + i && ctx.storage == old(ctx.storage)
      invariant ctx.trace == t0 + Flows.Tested(i)
      invariant forall j :: k <= j < k + i ==> !Succeeded(Reply(script, j))
      decreases |CANDIDATE_DIRS| - i
    {
      var candidate := CANDIDATE_DIRS[i];
      var probe := ctx.Exec(TestDirCmd(candidate));
      assert ctx.trace == t0 + Flows.Tested(i + 1);
      if Succeeded(probe) {
        Flows.CandidatesAfterMisses(script, k, i);
        return candidate;
      }
      i := i + 1;
    }
    Flows.CandidatesAfterMisses(script, k, i);
    return DEFAULT_DIR;
  }
}
