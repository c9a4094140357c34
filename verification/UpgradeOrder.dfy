/** Orders of checkpoint upgrades that respect dependencies, and when one exists: the
    specification of the scheduling loop in `cpt_upgrader.py`. */
module UpgradeOrder {
  import opened Collections

  type Tag = string

  /** For each known tag, the tags it depends on. */
  type Dependencies = map<Tag, set<Tag>>

  /** Everything the tag depends on is in the set. */
  predicate Ready(deps: Dependencies, t: Tag, tags: set<Tag>)
    requires t in deps
  {
    deps[t] <= tags
  }

  /** Each entry of the log is ready once the entries before it have been added. */
  ghost predicate Respects(deps: Dependencies, tags: set<Tag>, log: seq<Tag>) {
    forall k :: 0 <= k < |log| ==> log[k] in deps && Ready(deps, log[k], tags + Elements(log[..k]))
  }

  /** The log runs each pending tag exactly once, in an order that respects dependencies. */
  ghost predicate IsSchedule(deps: Dependencies, tags: set<Tag>, pending: set<Tag>, log: seq<Tag>) {
    NoRepeats(log) && Elements(log) == pending && Respects(deps, tags, log)
  }

  ghost predicate Schedulable(deps: Dependencies, tags: set<Tag>, pending: set<Tag>) {
    exists log :: IsSchedule(deps, tags, pending, log)
  }

  lemma ElementsPrefix(log: seq<Tag>, k: nat)
    requires k < |log|
    ensures Elements(log[..k + 1]) == Elements(log[..k]) + {log[k]}
  {
    assert log[..k + 1] == log[..k] + [log[k]];
  }

  /** Appending entries that were ready beforehand keeps a log in order. */
  lemma RespectsMore(deps: Dependencies, tags: set<Tag>, log: seq<Tag>, more: seq<Tag>)
    requires Respects(deps, tags, log) && log <= more
    requires forall t :: t in Elements(more) && t !in Elements(log) ==>
               t in deps && Ready(deps, t, tags + Elements(log))
    requires NoRepeats(more)
    ensures Respects(deps, tags, more)
  {
    forall k | 0 <= k < |more|
      ensures more[k] in deps && Ready(deps, more[k], tags + Elements(more[..k]))
    {
      if k < |log| {
        assert more[..k] == log[..k];
        assert Ready(deps, log[k], tags + Elements(log[..k]));
      } else {
        assert more[k] in Elements(more) && more[k] !in Elements(log);
        assert Elements(log) <= Elements(more[..k]) by {
          assert more[..k][..|log|] == log;
          forall t | t in Elements(log)
            ensures t in Elements(more[..k])
          {
            var i :| 0 <= i < |log| && log[i] == t;
            assert more[..k][i] == t;
          }
        }
      }
    }
  }

  /** The first entry of a schedule that has not been applied yet is ready. */
  lemma {:induction false} SomeIsReady(deps: Dependencies, tags: set<Tag>, pending: set<Tag>, log: seq<Tag>,
                                       done: set<Tag>, left: set<Tag>, k: nat) returns (t: Tag)
    requires IsSchedule(deps, tags, pending, log) && left != {} && left <= pending <= done + left && tags <= done
    requires k <= |log| && Elements(log[..k]) <= done
    requires Elements(log[..k]) !! left
    ensures t in left && t in deps && Ready(deps, t, done)
    decreases |log| - k
  {
    assert log[..|log|] == log;
    t :| t in left;
    assert t in Elements(log);
    if k == |log| {
      assert false;
    } else if log[k] in left {
      t := log[k];
      assert Ready(deps, log[k], tags + Elements(log[..k]));
    } else {
      ElementsPrefix(log, k);
      assert log[k] in Elements(log);
      t := SomeIsReady(deps, tags, pending, log, done, left, k + 1);
    }
  }

  /** If nothing that is left is ready, there is no schedule at all. */
  lemma StuckMeansUnschedulable(deps: Dependencies, tags: set<Tag>, pending: set<Tag>, done: set<Tag>, left: set<Tag>)
    requires left != {} && left <= pending <= done + left && tags <= done
    requires forall t :: t in left ==> t in deps && !Ready(deps, t, done)
    ensures !Schedulable(deps, tags, pending)
  {
    forall log | IsSchedule(deps, tags, pending, log)
      ensures false
    {
      var t := SomeIsReady(deps, tags, pending, log, done, left, 0);
    }
  }

  /** Whatever a scheduled tag depends on is present or scheduled too. */
  lemma ScheduleIsClosed(deps: Dependencies, tags: set<Tag>, pending: set<Tag>, log: seq<Tag>, t: Tag)
    requires IsSchedule(deps, tags, pending, log) && t in pending
    ensures t in deps && deps[t] <= tags + pending
  {
    assert t in Elements(log);
    var k :| 0 <= k < |log| && log[k] == t;
    assert Ready(deps, log[k], tags + Elements(log[..k]));
    assert Elements(log[..k]) <= Elements(log);
  }

  /** So a tag that depends on something neither present nor pending blocks every schedule. */
  lemma MissingDependency(deps: Dependencies, tags: set<Tag>, pending: set<Tag>, t: Tag)
    requires t in pending && t in deps && !(deps[t] <= tags + pending)
    ensures !Schedulable(deps, tags, pending)
  {
    forall log | IsSchedule(deps, tags, pending, log)
      ensures false
    {
      ScheduleIsClosed(deps, tags, pending, log, t);
    }
  }

  // ----- Legacy versions -----

  /** Versions 2..top each have their own tag, and each but the first depends on the one
      before. */
  ghost predicate LegacyChain(deps: Dependencies, legacy: map<int, Tag>, top: int) {
    && (forall i :: 2 <= i <= top ==> i in legacy && legacy[i] in deps)
    && (forall i, j :: 2 <= i < j <= top ==> legacy[i] != legacy[j])
    && (forall i :: 3 <= i <= top ==> legacy[i - 1] in deps[legacy[i]])
  }

  /** The tags a checkpoint of version `v` already has. */
  ghost function LegacyTags(legacy: map<int, Tag>, v: int): set<Tag>
    requires forall i :: 2 <= i <= v ==> i in legacy
  {
    set i | 2 <= i <= v :: legacy[i]
  }

  lemma PredecessorRan(deps: Dependencies, legacy: map<int, Tag>, top: int, v: int, log: seq<Tag>, j: int, q: nat)
    returns (p: nat)
    requires LegacyChain(deps, legacy, top) && v <= top && Respects(deps, LegacyTags(legacy, v), log)
    requires 3 <= j <= top && v < j - 1 && q < |log| && log[q] == legacy[j]
    ensures p < q && log[p] == legacy[j - 1]
  {
    assert Ready(deps, log[q], LegacyTags(legacy, v) + Elements(log[..q]));
    assert legacy[j - 1] in Elements(log[..q]);
    p :| 0 <= p < q && log[p] == legacy[j - 1];
  }

  /** In a schedule for a checkpoint of version `v`, a legacy upgrade comes after every
      legacy upgrade of a lower version that is also run. */
  lemma {:induction false} LegacyAscends(deps: Dependencies, legacy: map<int, Tag>, top: int, v: int,
                                         log: seq<Tag>, i: int, j: int, q: nat)
    requires LegacyChain(deps, legacy, top) && v <= top
    requires Respects(deps, LegacyTags(legacy, v), log)
    requires 2 <= i < j <= top && v < i && q < |log| && log[q] == legacy[j]
    ensures exists p :: 0 <= p < q && log[p] == legacy[i]
    decreases j
  {
    var p := PredecessorRan(deps, legacy, top, v, log, j, q);
    hide *;
    if i < j - 1 { LegacyAscends(deps, legacy, top, v, log, i, j - 1, p); }
  }

  /** The log has exactly the legacy upgrades after version `v`, in ascending order. */
  ghost predicate UpgradesFrom(legacy: map<int, Tag>, top: int, v: int, log: seq<Tag>) {
    && (forall i :: 2 <= i <= top ==> i in legacy && (legacy[i] in log <==> v < i))
    && (forall i, j, p, q ::
          2 <= i < j <= top && v < i && 0 <= p < |log| && 0 <= q < |log|
          && log[p] == legacy[i] && log[q] == legacy[j] ==>
            p < q)
  }

  /** A checkpoint of version `v` gets exactly the legacy upgrades after `v`, each once and
      in ascending order. */
  lemma LegacyUpgrades(deps: Dependencies, legacy: map<int, Tag>, top: int, v: int, all: set<Tag>, log: seq<Tag>)
    requires LegacyChain(deps, legacy, top) && v <= top && forall i :: 2 <= i <= top ==> legacy[i] in all
    requires IsSchedule(deps, LegacyTags(legacy, v), all - LegacyTags(legacy, v), log)
    ensures UpgradesFrom(legacy, top, v, log)
  {
    forall i | 2 <= i <= top
      ensures legacy[i] in log <==> v < i
    {
      assert legacy[i] in Elements(log) <==> legacy[i] in log;
    }
    forall i, j, p, q | 2 <= i < j <= top && v < i && 0 <= p < |log| && 0 <= q < |log|
                        && log[p] == legacy[i] && log[q] == legacy[j]
      ensures p < q
    {
      LegacyAscends(deps, legacy, top, v, log, i, j, q);
    }
  }
}
