/** The snapshot manager of one replica as it runs: swap, then broadcast, and what the broadcasts add up to. */
module SnapshotManager {
  import opened Basics
  import opened FlagModel
  import opened FlagSemantics
  import opened FlagMeaning
  import opened ChangeSet

  class Manager {
    var current: Snapshot
    var cache: Option<Snapshot>
    var sent: seq<ConfigUpdate>
    /** Every snapshot served, oldest first; the last is `current`. */
    ghost var served: seq<Snapshot>

    /** Each update names the swap it announces and reports exactly what that swap touched. */
    ghost predicate Valid()
      reads this
    {
      && |served| == |sent| + 1 && served[|sent|] == current
      && (forall i | 0 <= i < |sent| ::
          sent[i].version == served[i + 1].version && served[i].version < served[i + 1].version)
      && (forall i | 0 <= i < |sent| :: ReportOf(served[i], served[i + 1], sent[i].changed))
    }

    constructor (initial: Snapshot)
      ensures Valid() && current == initial && sent == [] && served == [initial] && cache == None
    {
      current, cache, sent, served := initial, None, [], [initial];
    }

    /** A reload once its load has returned `loaded`; the cache is optional. */
    method Reload(loaded: Snapshot, hasCache: bool)
      requires Valid()
      modifies this
      ensures Valid()
      ensures loaded.version <= old(current).version ==>
                current == old(current) && cache == old(cache) && sent == old(sent) && served == old(served)
      ensures loaded.version > old(current).version ==>
                && current == loaded
                && cache == (if hasCache then Some(loaded) else old(cache))
                && served == old(served) + [loaded]
                && |sent| == |old(sent)| + 1 && sent[..|old(sent)|] == old(sent)
                && sent[|old(sent)|].version == loaded.version
                && ReportOf(old(current), loaded, sent[|old(sent)|].changed)
    {
      if loaded.version <= current.version {
        return;
      }
      if hasCache {
        cache := Some(loaded);
      }
      var changed := ChangedFlagKeys(current, loaded);
      served := served + [loaded];
      current := loaded;
      sent := sent + [ConfigUpdate(loaded.version, changed)];
    }
  }

  /** Between positions `i` and `j` no update reported a flag that `key` reaches. */
  ghost predicate Quiet(served: seq<Snapshot>, i: nat, j: nat, key: string)
    requires i <= j < |served|
  {
    forall n, k | i <= n < j && Reaches(served[i], key, k) :: !Reported(served[n], served[n + 1], k)
  }

  /** Everything on a walk from `key` is reached from `key`. */
  lemma WalkIsReached(s: Snapshot, w: seq<string>, i: nat)
    requires IsWalk(s, w) && i < |w|
    ensures Reaches(s, w[0], w[i])
  {
    var p := w[..i + 1];
    assert IsWalk(s, p) && p[0] == w[0] && p[|p| - 1] == w[i];
  }

  /** If what `key` reaches in `a` is unreported, `b` lets it reach nothing more. */
  lemma {:induction false} ReachCarriesOver(a: Snapshot, b: Snapshot, w: seq<string>)
    requires IsWalk(b, w) && forall k | Reaches(a, w[0], k) :: !Reported(a, b, k)
    ensures IsWalk(a, w)
    decreases |w|
  {
    ReachesSelf(a, w[0]);
    if |w| > 1 {
      var p := w[..|w| - 1];
      assert IsWalk(b, p);
      ReachCarriesOver(a, b, p);
      WalkIsReached(a, p, |p| - 1);
      assert !Reported(a, b, w[|w| - 2]);
      assert DependsOn(b, w[|w| - 2], w[|w| - 1]);
    } else {
      assert w == [w[0]];
    }
  }

  lemma ReachShrinks(a: Snapshot, b: Snapshot, key: string, k: string)
    requires Reaches(b, key, k) && forall x | Reaches(a, key, x) :: !Reported(a, b, x)
    ensures Reaches(a, key, k)
  {
    var w :| IsWalk(b, w) && w[0] == key && w[|w| - 1] == k;
    ReachCarriesOver(a, b, w);
  }

  /**
   A client may keep a cached answer across any number of updates as long as none of them reports
   a flag the answer could depend on.
   */
  lemma {:induction false} SelectiveInvalidationIsSound(
    served: seq<Snapshot>, i: nat, j: nat, prim: Primitives, key: string, ctx: EvalContext)
    requires i <= j < |served| && forall n | i < n <= j :: WellKeyed(served[n])
    requires Quiet(served, i, j, key)
    ensures Evaluate(Engine(served[i], prim), key, ctx, []) == Evaluate(Engine(served[j], prim), key, ctx, [])
    ensures forall k | Reaches(served[j], key, k) :: Reaches(served[i], key, k)
    decreases j
  {
    if i < j {
      SelectiveInvalidationIsSound(served, i, j - 1, prim, key, ctx);
      var a, b := served[j - 1], served[j];
      forall k | Reaches(a, key, k)
        ensures !Reported(a, b, k)
      {
        assert Reaches(served[i], key, k);
        assert !Reported(served[j - 1], served[j - 1 + 1], k);
      }
      UnreportedFlagsAreUnchanged(prim, a, b, key, ctx, []);
      forall k | Reaches(b, key, k)
        ensures Reaches(served[i], key, k)
      {
        ReachShrinks(a, b, key, k);
      }
    }
  }
}
