/** The checkpoint upgrader `cpt_upgrader.py`: the registry its scripts fill, the
    resolution of forward dependencies, and the rounds in which upgrades are applied. */
module CptUpgrader {
  import opened Collections
  import opened UpgradeOrder
  import opened UpgradeRounds
  import opened UpgradePromise

  /** What one upgrader script declares. */
  datatype Script = Script(
    tag: Tag,
    depends: seq<Tag>,
    fwdDepends: seq<Tag>,
    isUpgrader: bool,
    legacyVersion: Option<int>)

  /** What a checkpoint says about its version: a legacy number, a list of tags or nothing. */
  datatype Version = LegacyVersion(version: int) | VersionTags(tags: set<Tag>) | NoVersion

  datatype Upgrader = Upgrader(depends: seq<Tag>, fwdDepends: seq<Tag>, isUpgrader: bool)

  type Table = map<Tag, Upgrader>

  ghost predicate DistinctTags(scripts: seq<Script>) {
    forall i, j :: 0 <= i < j < |scripts| ==> scripts[i].tag != scripts[j].tag
  }

  /** The dependencies a table records. */
  ghost function Deps(table: Table): Dependencies {
    map t | t in table :: Elements(table[t].depends)
  }

  /** The dependencies once forward dependencies have been turned around. */
  ghost function Resolved(table: Table): Dependencies {
    map t | t in table :: Elements(table[t].depends) + Forwarders(table, table.Keys, t)
  }

  /** The tags among `from` that declare `t` to depend on them. */
  ghost function Forwarders(table: Table, from: set<Tag>, t: Tag): set<Tag>
    requires from <= table.Keys
  {
    set u | u in from && t in table[u].fwdDepends
  }

  /** Every tag that `t` mentions in a dependency is known. */
  ghost predicate Known(table: Table, t: Tag)
    requires t in table
  {
    && (forall d :: d in table[t].depends ==> d in table)
    && (forall d :: d in table[t].fwdDepends ==> d in table)
  }

  ghost predicate AllKnown(table: Table) { forall t :: t in table ==> Known(table, t) }

  class Registry {
    var tagSet: set<Tag>
    var untagSet: set<Tag>
    var byTag: Table
    var legacy: map<int, Tag>

    constructor ()
      ensures tagSet == {} && untagSet == {} && byTag == map[] && legacy == map[]
    {
      tagSet, untagSet, byTag, legacy := {}, {}, map[], map[];
    }

    /** Tags to add and tags to remove are told apart by the scripts. */
    ghost predicate Valid()
      reads this
    {
      && byTag.Keys == tagSet + untagSet && tagSet !! untagSet
      && (forall t :: t in byTag ==> (byTag[t].isUpgrader <==> t in tagSet))
      && (forall i :: i in legacy ==> legacy[i] in byTag)
      && (forall i, j :: i in legacy && j in legacy && i != j ==> legacy[i] != legacy[j])
    }

    /** Enter one script.  A tag can only be used once. */
    method Register(s: Script)
      requires Valid() && s.tag !in byTag
      modifies this
      ensures Valid()
      ensures byTag == old(byTag)[s.tag := Upgrader(s.depends, s.fwdDepends, s.isUpgrader)]
      ensures tagSet == old(tagSet) + (if s.isUpgrader then {s.tag} else {})
      ensures untagSet == old(untagSet) + (if s.isUpgrader then {} else {s.tag})
      ensures legacy == if s.legacyVersion.Some? then old(legacy)[s.legacyVersion.value := s.tag] else old(legacy)
    {
      if s.isUpgrader {
        tagSet := tagSet + {s.tag};
      } else {
        untagSet := untagSet + {s.tag};
      }
      if s.legacyVersion.Some? { legacy := legacy[s.legacyVersion.value := s.tag]; }
      byTag := byTag[s.tag := Upgrader(s.depends, s.fwdDepends, s.isUpgrader)];
    }

    /** Make legacy versions from 3 on depend on the version before.  It fails, by a missing
        key, exactly when there is a version 3 but no version 2. */
    method LinkLegacy() returns (ok: bool, top: int)
      requires Valid()
      modifies this`byTag
      ensures Valid()
      ensures ok <==> (3 in legacy ==> 2 in legacy)
      ensures ok ==> top >= 2 && top + 1 !in legacy && Linkable(old(byTag), legacy, top)
      ensures ok ==> byTag == LinkTable(old(byTag), legacy, top)
    {
      hide LinkTable;
      var i := 3;
      LinkTableStart(byTag, legacy);
      while i in legacy
        invariant i >= 3 && Linkable(old(byTag), legacy, i - 1) && byTag == LinkTable(old(byTag), legacy, i - 1)
        invariant i > 3 ==> 2 in legacy
        decreases |VersionsFrom(legacy, i)|
      {
        if i - 1 !in legacy {
          return false, 0;
        }
        LinkTableStep(old(byTag), legacy, i);
        byTag := byTag[legacy[i] := byTag[legacy[i]].(depends := [legacy[i - 1]])];
        VersionsShrink(legacy, i);
        i := i + 1;
      }
      LinkTableKeeps(old(byTag), legacy, i - 1);
      return true, i - 1;
    }

    /** Append `tag` to the dependencies of every tag it forwards to; stop at the first that
        does not exist. */
    method ForwardOne(tag: Tag) returns (ok: bool)
      requires tag in byTag
      modifies this`byTag
      ensures ok <==> forall d :: d in old(byTag)[tag].fwdDepends ==> d in old(byTag)
      ensures SameButDepends(old(byTag), byTag)
      ensures ok ==> Forwarded(old(byTag), byTag, tag, old(byTag)[tag].fwdDepends)
    {
      hide Forwarded;
      var fwd := byTag[tag].fwdDepends;
      ForwardNone(byTag, tag);
      for k := 0 to |fwd|
        invariant SameButDepends(old(byTag), byTag) && Forwarded(old(byTag), byTag, tag, fwd[..k])
        invariant forall i :: 0 <= i < k ==> fwd[i] in old(byTag)
      {
        if fwd[k] !in byTag {
          return false;
        }
        ForwardStep(old(byTag), byTag, tag, fwd, k);
        byTag := byTag[fwd[k] := byTag[fwd[k]].(depends := byTag[fwd[k]].depends + [tag])];
      }
      assert fwd[..|fwd|] == fwd;
      return true;
    }

    method Audit(tag: Tag) returns (ok: bool)
      requires tag in byTag
      ensures ok <==> forall d :: d in byTag[tag].depends ==> d in byTag
    {
      var deps := byTag[tag].depends;
      for k := 0 to |deps|
        invariant forall i :: 0 <= i < k ==> deps[i] in byTag
      {
        if deps[k] !in byTag { return false; }
      }
      return true;
    }

    /** Turn forward dependencies around and check that every tag mentioned exists, visiting
        the tags in any order.  Neither the outcome nor the resulting dependencies depend on
        that order. */
    method Resolve(order: seq<Tag>) returns (ok: bool)
      requires Valid() && NoRepeats(order) && Elements(order) == byTag.Keys
      modifies this`byTag
      ensures Valid() && SameButDepends(old(byTag), byTag)
      ensures ok <==> AllKnown(old(byTag))
      ensures ok ==> Deps(byTag) == Resolved(old(byTag))
    {
      ghost var table := byTag;
      hide PartlyResolved, AllKnown, Forwarded, Deps, Resolved;
      ResolveNone(table);
      assert Elements(order[..0]) == {};
      for k := 0 to |order|
        invariant SameButDepends(table, byTag) && PartlyResolved(table, byTag, Elements(order[..k]))
      {
        assert order[k] in Elements(order);
        ElementsPrefix(order, k);
        ghost var before := byTag;
        ok := ForwardOne(order[k]);
        if !ok {
          UnknownForward(table, order[k]);
          return;
        }
        ok := Audit(order[k]);
        ResolveStep(table, before, byTag, Elements(order[..k]), order[k], ok);
        if !ok {
          return;
        }
      }
      assert order[..|order|] == order;
      ResolveAll(table, byTag);
      return true;
    }

    // ----- Applying upgrades -----

    /** Whether everything the tag depends on is present. */
    method IsReady(t: Tag, tags: set<Tag>) returns (ready: bool)
      requires t in byTag
      ensures ready <==> Ready(Deps(byTag), t, tags)
    {
      var deps := byTag[t].depends;
      for k := 0 to |deps|
        invariant forall i :: 0 <= i < k ==> deps[i] in tags
      {
        if deps[k] !in tags {
          assert deps[k] in Elements(deps);
          return false;
        }
      }
      return true;
    }

    method ReadyTags(left: set<Tag>, tags: set<Tag>) returns (ready: set<Tag>)
      requires left <= byTag.Keys
      ensures forall t :: t in ready <==> t in left && Ready(Deps(byTag), t, tags)
    {
      ready := {};
      var todo := left;
      while todo != {}
        invariant todo <= left
        invariant forall t :: t in ready <==> t in left - todo && Ready(Deps(byTag), t, tags)
        decreases todo
      {
        var t :| t in todo;
        var isReady := IsReady(t, tags);
        if isReady { ready := ready + {t}; }
        todo := todo - {t};
      }
    }

    /** What is still to be done: tags to add that are missing, tags to remove that are
        present. */
    function Pending(tags: set<Tag>): set<Tag>
      reads this
    {
      (tagSet - tags) + (untagSet * tags)
    }

    /** One round: apply the ready upgraders, in any order. */
    method Round(ready: set<Tag>, tags: set<Tag>, ghost log: seq<Tag>) returns (tags': set<Tag>, ghost log': seq<Tag>)
      requires Valid() && ready <= byTag.Keys && Elements(log) !! ready && NoRepeats(log)
      requires forall t :: t in ready && !byTag[t].isUpgrader ==> t in tags
      ensures NoRepeats(log') && log <= log' && Elements(log') == Elements(log) + ready
      ensures tags' == (tags + ready * tagSet) - ready * untagSet
    {
      var todo := ready;
      tags', log' := tags, log;
      while todo != {}
        invariant todo <= ready && NoRepeats(log') && log <= log' && Elements(log') == Elements(log) + (ready - todo)
        invariant tags' == (tags + (ready - todo) * tagSet) - (ready - todo) * untagSet
        decreases todo
      {
        var t :| t in todo;
        assert t !in Elements(log');
        ElementsAppend(log', t);
        if byTag[t].isUpgrader {
          tags' := tags' + {t};
        } else {
          tags' := tags' - {t};
        }
        log' := log' + [t];
        todo := todo - {t};
      }
    }

    /** What a run on a checkpoint with these tags is about. */
    ghost function JobOf(tags: set<Tag>): Job
      reads this
    {
      Job(Deps(byTag), tagSet, untagSet, tags)
    }

    /** The scheduling loop.  It succeeds exactly when the pending tags have levels that fit,
        and then every pending tag has been dealt with exactly once, in the round of its
        level, and the checkpoint has all tags to add and none to remove; it never needs more
        rounds than there are pending tags.  Without downgraders it succeeds exactly when some
        order respects all dependencies, and has used one.  The documented promise about
        downgraders is kept by every order, or by some order, of the rounds under the exact
        conditions stated. */
    method Upgrade(tags0: set<Tag>)
      returns (ok: bool, tags: set<Tag>, rounds: nat, ghost log: seq<Tag>, ghost batches: seq<set<Tag>>)
      requires Valid()
      ensures ok <==> Workable(JobOf(tags0))
      ensures rounds == |batches| <= |Pending(tags0)| && Greedy(JobOf(tags0), batches)
      ensures exists parts :: OrderOf(batches, parts) && log == Flat(parts)
      ensures ok ==> tags == (tags0 + tagSet) - untagSet
      ensures ok ==> NoRepeats(log) && Elements(log) == Pending(tags0) == Applied(batches)
      ensures untagSet == {} ==> (ok <==> Schedulable(Deps(byTag), tags0, Pending(tags0)))
      ensures ok && untagSet == {} ==> IsSchedule(Deps(byTag), tags0, Pending(tags0), log)
      ensures ok ==> (EveryOrderKeeps(JobOf(tags0), batches) <==> NoDependence(JobOf(tags0)))
      ensures ok ==> forall level :: IsLevel(JobOf(tags0), level) && Fits(JobOf(tags0), level) ==>
                (SomeOrderKeeps(JobOf(tags0), batches) <==> SameLevel(JobOf(tags0), level) && NoRing(JobOf(tags0)))
    {
      hide *;
      ghost var job, left, parts := JobOf(tags0), {}, [];
      JobIsValid(tags0);
      ok, tags, rounds, log, batches, parts, left := Apply(tags0);
      StandingMeans(job, left, tags, log, batches, parts);
      if !ok {
        Stuck(job, left, tags, log, batches, parts);
      } else {
        StandingDone(job, tags, log, batches, parts);
        forall level | IsLevel(job, level) && Fits(job, level)
          ensures SomeOrderKeeps(job, batches) <==> SameLevel(job, level) && NoRing(job)
        {
          SomeOrderIff(job, level, batches);
        }
      }
    }

    /** The loop itself, until nothing is left or nothing left is ready. */
    method Apply(tags0: set<Tag>)
      returns (ok: bool, tags: set<Tag>, rounds: nat, ghost log: seq<Tag>, ghost batches: seq<set<Tag>>,
               ghost parts: seq<seq<Tag>>, ghost rest: set<Tag>)
      requires Valid()
      ensures Standing(JobOf(tags0), rest, tags, log, batches, parts)
      ensures |batches| == rounds && rounds + |rest| <= |Pending(tags0)|
      ensures ok <==> rest == {}
      ensures forall t :: t in rest && t in Deps(byTag) ==> !Ready(Deps(byTag), t, tags)
    {
      hide Deps, Standing, Respects, Ready, Elements, NoRepeats, Greedy, OrderOf, ReadyIn, ValidJob, Flat;
      var left := Pending(tags0);
      ghost var job := JobOf(tags0);
      JobIsValid(tags0);
      tags, rounds, log, batches, parts := tags0, 0, [], [], [];
      StandingStart(job);
      while left != {}
        invariant left <= byTag.Keys && Standing(job, left, tags, log, batches, parts)
        invariant rounds + |left| <= |Pending(tags0)| && |batches| == rounds
        decreases left
      {
        StandingMeans(job, left, tags, log, batches, parts);
        var ready := ReadyTags(left, tags);
        if ready == {} { return false, tags, rounds, log, batches, parts, left; }
        ghost var before, tags1 := log, tags;
        tags, log := Round(ready, tags, log);
        StandingStep(job, left, tags1, before, batches, parts, ready, tags, log);
        SmallerBy(left, ready);
        left := left - ready;
        batches := batches + [ready];
        parts := parts + [log[|before|..]];
        rounds := rounds + 1;
      }
      ok, rest := true, {};
    }

    lemma JobIsValid(tags: set<Tag>)
      requires Valid()
      ensures ValidJob(JobOf(tags)) && PendingOf(JobOf(tags)) == Pending(tags) <= byTag.Keys
      ensures Deps(byTag).Keys == byTag.Keys && JobOf(tags) == Job(Deps(byTag), tagSet, untagSet, tags)
    {
    }

    /** After a successful run nothing is pending: a second run finds nothing to do. */
    lemma SecondRunIdle(tags: set<Tag>)
      requires Valid()
      ensures Pending((tags + tagSet) - untagSet) == {}
    {
    }

    /** Convert a legacy version number to tags; a version without a script is an error. */
    method ConvertLegacy(version: int) returns (r: Option<set<Tag>>)
      ensures r.Some? <==> forall i :: 2 <= i <= version ==> i in legacy
      ensures r.Some? ==> r.value == LegacyTags(legacy, version)
    {
      var tags := {};
      var i := 2;
      while i < version + 1
        invariant 2 <= i && (i <= version + 1 || i == 2)
        invariant forall k :: 2 <= k < i ==> k in legacy
        invariant tags == set k | 2 <= k < i :: legacy[k]
      {
        if i !in legacy { return None; }
        assert (set k | 2 <= k < i + 1 :: legacy[k]) == tags + {legacy[i]};
        tags := tags + {legacy[i]};
        i := i + 1;
      }
      return Some(tags);
    }

    /** The tags a checkpoint starts from, if its version can be read. */
    ghost function TagsOf(version: Version): Option<set<Tag>>
      reads this
    {
      match version
      case NoVersion => None
      case VersionTags(tags) => Some(tags)
      case LegacyVersion(v) =>
        if forall i :: 2 <= i <= v ==> i in legacy then Some(LegacyTags(legacy, v)) else None
    }

    /** A checkpoint with neither cannot be read, one with tags starts from them, and one of
        a legacy version v from the tags of the versions 2 to v; it cannot be read exactly if
        one of these is missing, so never up to the end of a contiguous chain. */
    lemma VersionMeans(version: Version, top: int)
      requires top >= 3 ==> forall i :: 2 <= i <= top ==> i in legacy
      ensures version.NoVersion? ==> TagsOf(version).None?
      ensures version.VersionTags? ==> TagsOf(version) == Some(version.tags)
      ensures version.LegacyVersion? && version.version <= (if top < 3 then 1 else top) ==> TagsOf(version).Some?
      ensures version.LegacyVersion? ==>
                (TagsOf(version).None? <==> exists i :: 2 <= i <= version.version && i !in legacy)
      ensures version.LegacyVersion? && TagsOf(version).Some? ==>
                forall t :: t in TagsOf(version).value <==>
                            exists i :: 2 <= i <= version.version && i in legacy && legacy[i] == t
    {
    }

    /** One checkpoint, whatever its version says.  It fails exactly if the version cannot be
        read or the upgrades have no fitting levels; then nothing is written.  Otherwise the
        tags written are the promised ones, and a second run on them changes nothing.  Without
        downgraders, a checkpoint of a version in a contiguous legacy chain gets exactly the
        later legacy upgrades, in ascending order. */
    method ProcessFile(version: Version) returns (r: Option<set<Tag>>, change: bool, ghost log: seq<Tag>)
      requires Valid()
      ensures r.Some? <==> TagsOf(version).Some? && Workable(JobOf(TagsOf(version).value))
      ensures r.Some? ==> r.value == (TagsOf(version).value + tagSet) - untagSet && Pending(r.value) == {}
      ensures r.Some? ==> (change <==> version.LegacyVersion? || Pending(TagsOf(version).value) != {})
      ensures r.None? ==> !change
      ensures r.Some? ==> NoRepeats(log) && Elements(log) == Pending(TagsOf(version).value)
      ensures r.Some? && version.LegacyVersion? && untagSet == {} ==>
                forall top :: LegacyChain(Deps(byTag), legacy, top) && version.version <= top ==>
                  UpgradesFrom(legacy, top, version.version, log)
    {
      hide *;
      var start := ReadVersion(version);
      log := [];
      if start.None? { return None, false, log; }
      var ok, tags, rounds;
      ghost var batches;
      ok, tags, rounds, log, batches := Upgrade(start.value);
      if !ok { return None, false, log; }
      JobIsValid(start.value);
      RoundsIffPending(batches);
      SecondRunIdle(start.value);
      if version.LegacyVersion? && untagSet == {} { LegacyLog(version, log); }
      return Some(tags), version.LegacyVersion? || rounds > 0, log;
    }

    /** The tags to start from. */
    method ReadVersion(version: Version) returns (start: Option<set<Tag>>)
      ensures start == TagsOf(version)
    {
      match version {
        case LegacyVersion(v) => start := ConvertLegacy(v);
        case VersionTags(tags) => start := Some(tags);
        case NoVersion => start := None;
      }
    }

    lemma LegacyLog(version: Version, log: seq<Tag>)
      requires Valid() && untagSet == {} && version.LegacyVersion? && TagsOf(version).Some?
      requires IsSchedule(Deps(byTag), TagsOf(version).value, Pending(TagsOf(version).value), log)
      ensures forall top :: LegacyChain(Deps(byTag), legacy, top) && version.version <= top ==>
                UpgradesFrom(legacy, top, version.version, log)
    {
      hide Deps, IsSchedule, UpgradesFrom;
      var v := version.version;
      forall top | LegacyChain(Deps(byTag), legacy, top) && v <= top
        ensures UpgradesFrom(legacy, top, v, log)
      {
        assert Pending(LegacyTags(legacy, v)) == tagSet - LegacyTags(legacy, v);
        LegacyUpgrades(Deps(byTag), legacy, top, v, tagSet, log);
      }
    }

    /** Load all scripts: enter them, link legacy versions, resolve forward dependencies. */
    method LoadAll(scripts: seq<Script>, order: seq<Tag>) returns (ok: bool, top: int)
      requires tagSet == {} && untagSet == {} && byTag == map[] && legacy == map[]
      requires DistinctTags(scripts) && NoRepeats(order) && Elements(order) == set s | s in scripts :: s.tag
      modifies this
      ensures Valid() && legacy == LegacyOf(scripts) && LegacyEntered(scripts, legacy)
      ensures tagSet == TagsOfKind(scripts, true) && untagSet == TagsOfKind(scripts, false)
      ensures 3 in legacy && 2 !in legacy ==> !ok
      ensures 3 !in legacy || 2 in legacy ==>
                && top >= 2 && Linkable(TableOf(scripts), legacy, top) && top + 1 !in legacy
                && (ok <==> AllKnown(LinkTable(TableOf(scripts), legacy, top)))
                && (ok <==> AllMentioned(scripts, legacy, top))
      ensures ok ==> Deps(byTag) == Resolved(LinkTable(TableOf(scripts), legacy, top))
      ensures ok ==> DependsAsDeclared(scripts, legacy, top, Deps(byTag))
      ensures ok && 2 in legacy ==> LegacyChain(Deps(byTag), legacy, top)
    {
      EnterAll(scripts);
      LegacyDiffers();
      hide TableOf, LegacyOf, Deps, Resolved, LinkTable, Linkable, AllKnown, LegacyChain, Entered, LegacyEntered;
      hide AllMentioned, DependsAsDeclared, TagsOfKind;
      ok, top := LinkLegacy();
      if !ok { return; }
      LinkTableKeeps(TableOf(scripts), legacy, top);
      LoadedKnown(scripts, legacy, top);
      LoadedDepends(scripts, legacy, top);
      ok := Resolve(order);
      if ok && 2 in legacy { ChainAfterLoad(TableOf(scripts), legacy, top); }
    }

    lemma LegacyDiffers()
      requires Valid()
      ensures forall i, j :: i in legacy && j in legacy && i != j ==> legacy[i] != legacy[j]
    {
    }

    method EnterAll(scripts: seq<Script>)
      requires tagSet == {} && untagSet == {} && byTag == map[] && legacy == map[]
      requires DistinctTags(scripts)
      modifies this
      ensures Valid() && byTag == TableOf(scripts) && legacy == LegacyOf(scripts)
      ensures Entered(scripts, byTag, tagSet, untagSet) && LegacyEntered(scripts, legacy)
    {
      for k := 0 to |scripts|
        invariant Valid() && byTag == TableOf(scripts[..k]) && legacy == LegacyOf(scripts[..k])
        invariant tagSet == TagsOfKind(scripts[..k], true) && untagSet == TagsOfKind(scripts[..k], false)
      {
        assert scripts[..k + 1] == scripts[..k] + [scripts[k]];
        KindsMore(scripts[..k], scripts[k]);
        Register(scripts[k]);
      }
      assert scripts[..|scripts|] == scripts;
      hide TableOf, LegacyOf;
      forall i | 0 <= i < |scripts| ensures IsEntered(scripts[i], byTag) { TableAt(scripts, i); }
      forall v: int ensures LegacyIs(scripts, legacy, v) { LegacyAt(scripts, v); }
    }
  }

  lemma RoundsIffPending(batches: seq<set<Tag>>)
    ensures Applied(batches) != {} ==> |batches| > 0
  {
  }

  /** The whole program on one checkpoint: load the scripts and process the file.  It succeeds
      exactly if the legacy versions can be linked, every tag mentioned is known, the version
      can be read and the upgrades have fitting levels.  After a successful load, versions 2
      to `top` of a registry without downgraders form a chain and an old checkpoint gets the
      upgrades it lacks in ascending order. */
  method UpgradeCheckpoint(scripts: seq<Script>, order: seq<Tag>, version: Version)
    returns (r: Option<set<Tag>>, change: bool, reg: Registry, ghost top: int, ghost log: seq<Tag>)
    requires DistinctTags(scripts) && NoRepeats(order) && Elements(order) == set s | s in scripts :: s.tag
    ensures reg.Valid() && LegacyEntered(scripts, reg.legacy)
    ensures reg.tagSet == TagsOfKind(scripts, true) && reg.untagSet == TagsOfKind(scripts, false)
    ensures 3 in reg.legacy && 2 !in reg.legacy ==> r.None?
    ensures 3 !in reg.legacy || 2 in reg.legacy ==>
              && top >= 2 && top + 1 !in reg.legacy && (top >= 3 ==> forall i :: 2 <= i <= top ==> i in reg.legacy)
              && (r.Some? <==>
                  && AllMentioned(scripts, reg.legacy, top)
                  && reg.TagsOf(version).Some? && Workable(reg.JobOf(reg.TagsOf(version).value)))
              && (r.Some? ==> DependsAsDeclared(scripts, reg.legacy, top, Deps(reg.byTag)))
    ensures r.Some? ==> reg.TagsOf(version).Some? && r.value == (reg.TagsOf(version).value + reg.tagSet) - reg.untagSet
    ensures version.NoVersion? ==> r.None?
    ensures version.VersionTags? ==> reg.TagsOf(version) == Some(version.tags)
    ensures version.LegacyVersion? ==>
              (reg.TagsOf(version).None? <==> exists i :: 2 <= i <= version.version && i !in reg.legacy)
    ensures version.LegacyVersion? && reg.TagsOf(version).Some? ==>
              forall t :: t in reg.TagsOf(version).value <==>
                          exists i :: 2 <= i <= version.version && i in reg.legacy && reg.legacy[i] == t
    ensures r.Some? ==> reg.Pending(r.value) == {}
    ensures r.Some? ==> (change <==> version.LegacyVersion? || reg.Pending(reg.TagsOf(version).value) != {})
    ensures r.None? ==> !change
    ensures r.Some? ==> NoRepeats(log) && Elements(log) == reg.Pending(reg.TagsOf(version).value)
    ensures r.Some? && version.LegacyVersion? && 2 in reg.legacy && version.version <= top && reg.untagSet == {} ==>
              UpgradesFrom(reg.legacy, top, version.version, log)
  {
    hide *;
    reg := new Registry();
    var ok, last := reg.LoadAll(scripts, order);
    top, log := last, [];
    if 3 !in reg.legacy || 2 in reg.legacy { LinkableMeans(TableOf(scripts), reg.legacy, top); }
    reg.VersionMeans(version, 2);
    if !ok { return None, false, reg, top, log; }
    r, change, log := reg.ProcessFile(version);
  }

  lemma LinkableMeans(table: Table, legacy: map<int, Tag>, upto: int)
    requires Linkable(table, legacy, upto)
    ensures upto >= 3 ==> forall i :: 2 <= i <= upto ==> i in legacy
  {
  }

  // ----- What the scripts declare -----

  ghost function TagsIn(scripts: seq<Script>): set<Tag> { set s | s in scripts :: s.tag }

  /** The tags of the upgraders, or of the downgraders. */
  ghost function TagsOfKind(scripts: seq<Script>, isUpgrader: bool): set<Tag> {
    set s | s in scripts && s.isUpgrader == isUpgrader :: s.tag
  }

  ghost predicate IsEntered(s: Script, table: Table) {
    s.tag in table && table[s.tag] == Upgrader(s.depends, s.fwdDepends, s.isUpgrader)
  }

  ghost predicate Entered(scripts: seq<Script>, table: Table, tagSet: set<Tag>, untagSet: set<Tag>) {
    && table.Keys == TagsIn(scripts) && (forall i :: 0 <= i < |scripts| ==> IsEntered(scripts[i], table))
    && tagSet == TagsOfKind(scripts, true) && untagSet == TagsOfKind(scripts, false)
  }

  /** Script `i` is the last one for version `v`. */
  ghost predicate LastFor(scripts: seq<Script>, i: int, v: int) {
    && 0 <= i < |scripts| && scripts[i].legacyVersion == Some(v)
    && forall j :: i < j < |scripts| ==> scripts[j].legacyVersion != Some(v)
  }

  ghost predicate LegacyIs(scripts: seq<Script>, legacy: map<int, Tag>, v: int) {
    && (v in legacy <==> exists i :: LastFor(scripts, i, v))
    && (forall i :: LastFor(scripts, i, v) ==> v in legacy && legacy[v] == scripts[i].tag)
  }

  ghost predicate LegacyEntered(scripts: seq<Script>, legacy: map<int, Tag>) {
    forall v: int :: LegacyIs(scripts, legacy, v)
  }

  /** The script holds version `v`, which is linked to the version before. */
  ghost predicate HoldsVersion(s: Script, legacy: map<int, Tag>, top: int, v: int) {
    3 <= v <= top && v in legacy && legacy[v] == s.tag && v - 1 in legacy
  }

  ghost predicate Linked(s: Script, legacy: map<int, Tag>, top: int) {
    exists v :: HoldsVersion(s, legacy, top, v)
  }

  /** What the script itself depends on: the version before, if it holds a linked version, or
      else what it declares. */
  ghost function OwnDepends(s: Script, legacy: map<int, Tag>, top: int): set<Tag> {
    if Linked(s, legacy, top) then var v :| HoldsVersion(s, legacy, top, v); {legacy[v - 1]}
    else Elements(s.depends)
  }

  /** And the scripts that declare it to depend on them. */
  ghost function ForwardedTo(scripts: seq<Script>, t: Tag): set<Tag> {
    set u | u in scripts && t in u.fwdDepends :: u.tag
  }

  ghost predicate DependsAt(scripts: seq<Script>, s: Script, legacy: map<int, Tag>, top: int, deps: Dependencies) {
    s.tag in deps && deps[s.tag] == OwnDepends(s, legacy, top) + ForwardedTo(scripts, s.tag)
  }

  ghost predicate DependsAsDeclared(scripts: seq<Script>, legacy: map<int, Tag>, top: int, deps: Dependencies) {
    deps.Keys == TagsIn(scripts) && forall i :: 0 <= i < |scripts| ==> DependsAt(scripts, scripts[i], legacy, top, deps)
  }

  ghost predicate Mentions(scripts: seq<Script>, s: Script, legacy: map<int, Tag>, top: int) {
    && (forall d :: d in s.fwdDepends ==> d in TagsIn(scripts))
    && (!Linked(s, legacy, top) ==> forall d :: d in s.depends ==> d in TagsIn(scripts))
  }

  /** Every tag a script mentions is that of a script. */
  ghost predicate AllMentioned(scripts: seq<Script>, legacy: map<int, Tag>, top: int) {
    forall i :: 0 <= i < |scripts| ==> Mentions(scripts, scripts[i], legacy, top)
  }

  lemma KindsMore(scripts: seq<Script>, s: Script)
    ensures TagsOfKind(scripts + [s], true) == TagsOfKind(scripts, true) + (if s.isUpgrader then {s.tag} else {})
    ensures TagsOfKind(scripts + [s], false) == TagsOfKind(scripts, false) + (if s.isUpgrader then {} else {s.tag})
  {
    var all := scripts + [s];
    assert all[|scripts|] == s && forall i :: 0 <= i < |scripts| ==> all[i] == scripts[i];
    assert forall x :: x in all <==> x in scripts || x == s;
  }

  lemma {:induction false} TableAt(scripts: seq<Script>, i: nat)
    requires DistinctTags(scripts) && i < |scripts|
    ensures IsEntered(scripts[i], TableOf(scripts))
    decreases |scripts|
  {
    var n := |scripts| - 1;
    if i < n {
      TableAt(scripts[..n], i);
      assert scripts[i].tag != scripts[n].tag;
    }
  }

  lemma {:induction false} LegacyAt(scripts: seq<Script>, v: int)
    ensures LegacyIs(scripts, LegacyOf(scripts), v)
    decreases |scripts|
  {
    if scripts != [] {
      var n := |scripts| - 1;
      LegacyAt(scripts[..n], v);
      if scripts[n].legacyVersion == Some(v) {
        assert LastFor(scripts, n, v);
      } else {
        forall i ensures LastFor(scripts, i, v) <==> LastFor(scripts[..n], i, v) {
          LastForMore(scripts, i, v);
        }
      }
    }
  }

  lemma LastForMore(scripts: seq<Script>, i: int, v: int)
    requires scripts != [] && scripts[|scripts| - 1].legacyVersion != Some(v)
    ensures LastFor(scripts, i, v) <==> LastFor(scripts[..|scripts| - 1], i, v)
  {
    var init := scripts[..|scripts| - 1];
    assert forall j :: 0 <= j < |init| ==> init[j] == scripts[j];
  }

  lemma KeyIsScript(scripts: seq<Script>, t: Tag) returns (i: nat)
    requires t in TagsIn(scripts)
    ensures i < |scripts| && scripts[i].tag == t
  {
    i :| 0 <= i < |scripts| && scripts[i].tag == t;
  }

  /** One row of the loaded table. */
  lemma LoadedRow(scripts: seq<Script>, legacy: map<int, Tag>, top: int, i: nat)
    requires DistinctTags(scripts) && i < |scripts| && Linkable(TableOf(scripts), legacy, top)
    requires forall v, w :: v in legacy && w in legacy && v != w ==> legacy[v] != legacy[w]
    ensures var s, table := scripts[i], LinkTable(TableOf(scripts), legacy, top);
            && s.tag in table && table[s.tag].fwdDepends == s.fwdDepends
            && Elements(table[s.tag].depends) == OwnDepends(s, legacy, top)
            && (Linked(s, legacy, top) ==> forall d :: d in table[s.tag].depends ==> d in table)
            && (!Linked(s, legacy, top) ==> table[s.tag].depends == s.depends)
  {
    var s := scripts[i];
    TableAt(scripts, i);
    LinkTableKeeps(TableOf(scripts), legacy, top);
    LinkTableDepends(TableOf(scripts), legacy, top, s.tag);
    hide TableOf, LinkTable, Linked, OwnDepends, Elements;
    LinkedMeans(s, legacy, top);
    if Linked(s, legacy, top) {
      var v :| HoldsVersion(s, legacy, top, v);
      OwnIsBefore(s, legacy, top, v);
      SingleElement(legacy[v - 1]);
    } else {
      forall v | 3 <= v <= top ensures legacy[v] != s.tag { NotHeld(s, legacy, top, v); }
    }
  }

  lemma LinkedMeans(s: Script, legacy: map<int, Tag>, top: int)
    ensures Linked(s, legacy, top) ==> exists v :: HoldsVersion(s, legacy, top, v)
    ensures !Linked(s, legacy, top) ==> OwnDepends(s, legacy, top) == Elements(s.depends)
  {
  }

  lemma SingleElement(t: Tag)
    ensures Elements([t]) == {t}
  {
  }

  lemma OwnIsBefore(s: Script, legacy: map<int, Tag>, top: int, v: int)
    requires HoldsVersion(s, legacy, top, v)
    requires forall v, w :: v in legacy && w in legacy && v != w ==> legacy[v] != legacy[w]
    ensures OwnDepends(s, legacy, top) == {legacy[v - 1]}
  {
  }

  lemma NotHeld(s: Script, legacy: map<int, Tag>, top: int, v: int)
    requires !Linked(s, legacy, top) && 3 <= v <= top && v in legacy && v - 1 in legacy
    ensures legacy[v] != s.tag
  {
    assert !HoldsVersion(s, legacy, top, v);
  }

  lemma LoadedKnown(scripts: seq<Script>, legacy: map<int, Tag>, top: int)
    requires DistinctTags(scripts) && Linkable(TableOf(scripts), legacy, top)
    requires forall v, w :: v in legacy && w in legacy && v != w ==> legacy[v] != legacy[w]
    ensures AllKnown(LinkTable(TableOf(scripts), legacy, top)) <==> AllMentioned(scripts, legacy, top)
  {
    var table := LinkTable(TableOf(scripts), legacy, top);
    hide TableOf, LinkTable, OwnDepends, Linked, Linkable;
    assert table.Keys == TagsIn(scripts);
    forall i | 0 <= i < |scripts|
      ensures scripts[i].tag in table && (Known(table, scripts[i].tag) <==> Mentions(scripts, scripts[i], legacy, top))
    {
      LoadedRow(scripts, legacy, top, i);
    }
    if AllMentioned(scripts, legacy, top) {
      forall t | t in table ensures Known(table, t) { var i := KeyIsScript(scripts, t); }
    }
  }

  lemma LoadedDepends(scripts: seq<Script>, legacy: map<int, Tag>, top: int)
    requires DistinctTags(scripts) && Linkable(TableOf(scripts), legacy, top)
    requires forall v, w :: v in legacy && w in legacy && v != w ==> legacy[v] != legacy[w]
    ensures DependsAsDeclared(scripts, legacy, top, Resolved(LinkTable(TableOf(scripts), legacy, top)))
  {
    var table := LinkTable(TableOf(scripts), legacy, top);
    assert Resolved(table).Keys == table.Keys == TagsIn(scripts);
    hide TableOf, LinkTable, Linkable, DependsAt, Resolved;
    forall i | 0 <= i < |scripts|
      ensures DependsAt(scripts, scripts[i], legacy, top, Resolved(table))
    {
      LoadedAt(scripts, legacy, top, i);
    }
  }

  lemma LoadedAt(scripts: seq<Script>, legacy: map<int, Tag>, top: int, i: nat)
    requires DistinctTags(scripts) && i < |scripts| && Linkable(TableOf(scripts), legacy, top)
    requires forall v, w :: v in legacy && w in legacy && v != w ==> legacy[v] != legacy[w]
    ensures DependsAt(scripts, scripts[i], legacy, top, Resolved(LinkTable(TableOf(scripts), legacy, top)))
  {
    hide TableOf, LinkTable, Linkable, OwnDepends, Linked, Elements, Forwarders, ForwardedTo, Resolved;
    LoadedRow(scripts, legacy, top, i);
    LoadedForwarders(scripts, legacy, top, scripts[i].tag);
    ResolvedAt(LinkTable(TableOf(scripts), legacy, top), scripts[i].tag);
  }

  lemma ResolvedAt(table: Table, t: Tag)
    requires t in table
    ensures t in Resolved(table)
    ensures Resolved(table)[t] == Elements(table[t].depends) + Forwarders(table, table.Keys, t)
  {
  }

  lemma LoadedForwarders(scripts: seq<Script>, legacy: map<int, Tag>, top: int, t: Tag)
    requires DistinctTags(scripts) && Linkable(TableOf(scripts), legacy, top)
    requires forall v, w :: v in legacy && w in legacy && v != w ==> legacy[v] != legacy[w]
    ensures var table := LinkTable(TableOf(scripts), legacy, top);
            Forwarders(table, table.Keys, t) == ForwardedTo(scripts, t)
  {
    var table := LinkTable(TableOf(scripts), legacy, top);
    hide TableOf, LinkTable, OwnDepends, Linked, Linkable;
    assert table.Keys == TagsIn(scripts);
    forall u ensures u in Forwarders(table, table.Keys, t) <==> u in ForwardedTo(scripts, t) {
      if u in Forwarders(table, table.Keys, t) {
        var i := KeyIsScript(scripts, u);
        LoadedRow(scripts, legacy, top, i);
        assert scripts[i] in scripts;
      }
      if u in ForwardedTo(scripts, t) {
        var i :| 0 <= i < |scripts| && scripts[i].tag == u && t in scripts[i].fwdDepends;
        LoadedRow(scripts, legacy, top, i);
      }
    }
  }

  /** The table after entering the scripts. */
  ghost function TableOf(scripts: seq<Script>): (r: Table)
    ensures r.Keys == set s | s in scripts :: s.tag
  {
    if scripts == [] then map[]
    else
      var s := scripts[|scripts| - 1];
      assert scripts == scripts[..|scripts| - 1] + [s];
      TableOf(scripts[..|scripts| - 1])[s.tag := Upgrader(s.depends, s.fwdDepends, s.isUpgrader)]
  }

  ghost function LegacyOf(scripts: seq<Script>): map<int, Tag> {
    if scripts == [] then map[]
    else
      var s, before := scripts[|scripts| - 1], LegacyOf(scripts[..|scripts| - 1]);
      if s.legacyVersion.Some? then before[s.legacyVersion.value := s.tag] else before
  }

  /** Loading makes the contiguous legacy versions a dependency chain. */
  lemma ChainAfterLoad(table: Table, legacy: map<int, Tag>, top: int)
    requires Linkable(table, legacy, top) && 2 in legacy
    requires forall i, j :: i in legacy && j in legacy && i != j ==> legacy[i] != legacy[j]
    ensures top >= 2 ==> LegacyChain(Resolved(LinkTable(table, legacy, top)), legacy, top)
  {
    var deps := Resolved(LinkTable(table, legacy, top));
    forall i | 3 <= i <= top
      ensures legacy[i - 1] in deps[legacy[i]]
    {
      LinkTableDepends(table, legacy, top, legacy[i]);
      assert [legacy[i - 1]][0] in Elements([legacy[i - 1]]);
    }
  }

  /** Where a run stands: what has been applied and what is left make up what was pending,
      and the tags are what the applied ones made of them. */
  ghost predicate Progress(tagSet: set<Tag>, untagSet: set<Tag>, tags0: set<Tag>, left: set<Tag>,
                           tags: set<Tag>, log: seq<Tag>) {
    && NoRepeats(log) && Elements(log) !! left
    && Elements(log) + left == (tagSet - tags0) + (untagSet * tags0)
    && tags == (tags0 + Elements(log) * tagSet) - Elements(log) * untagSet
  }

  lemma ProgressMeans(tagSet: set<Tag>, untagSet: set<Tag>, tags0: set<Tag>, left: set<Tag>,
                      tags: set<Tag>, log: seq<Tag>)
    requires Progress(tagSet, untagSet, tags0, left, tags, log) && tagSet !! untagSet
    ensures NoRepeats(log) && Elements(log) !! left
    ensures left * untagSet <= tags
    ensures untagSet == {} ==> tags == tags0 + Elements(log) && left <= tagSet - tags0 <= tags + left
  {
  }

  lemma ProgressStep(tagSet: set<Tag>, untagSet: set<Tag>, tags0: set<Tag>, left: set<Tag>,
                     tags: set<Tag>, log: seq<Tag>, ready: set<Tag>, tags': set<Tag>, log': seq<Tag>)
    requires Progress(tagSet, untagSet, tags0, left, tags, log) && tagSet !! untagSet
    requires ready <= left && NoRepeats(log') && Elements(log') == Elements(log) + ready
    requires tags' == (tags + ready * tagSet) - ready * untagSet
    ensures Progress(tagSet, untagSet, tags0, left - ready, tags', log')
  {
    hide Elements, NoRepeats;
  }

  lemma ProgressDone(tagSet: set<Tag>, untagSet: set<Tag>, tags0: set<Tag>, tags: set<Tag>, log: seq<Tag>)
    requires Progress(tagSet, untagSet, tags0, {}, tags, log) && tagSet !! untagSet
    ensures NoRepeats(log) && Elements(log) == (tagSet - tags0) + (untagSet * tags0)
    ensures tags == (tags0 + tagSet) - untagSet
  {
    hide Elements, NoRepeats;
  }

  lemma ScheduleFound(deps: Dependencies, tags: set<Tag>, pending: set<Tag>, log: seq<Tag>)
    requires NoRepeats(log) && Elements(log) == pending && Respects(deps, tags, log)
    ensures IsSchedule(deps, tags, pending, log) && Schedulable(deps, tags, pending)
  {
    assert IsSchedule(deps, tags, pending, log);
  }

  ghost predicate Standing(job: Job, left: set<Tag>, tags: set<Tag>, log: seq<Tag>,
                           batches: seq<set<Tag>>, parts: seq<seq<Tag>>) {
    && ValidJob(job) && Progress(job.tagSet, job.untagSet, job.tags0, left, tags, log)
    && (job.untagSet == {} ==> Respects(job.deps, job.tags0, log))
    && Greedy(job, batches) && Applied(batches) == Elements(log) && OrderOf(batches, parts) && log == Flat(parts)
  }

  lemma StandingStart(job: Job)
    requires ValidJob(job)
    ensures Standing(job, PendingOf(job), job.tags0, [], [], [])
  {
  }

  lemma StandingMeans(job: Job, left: set<Tag>, tags: set<Tag>, log: seq<Tag>,
                      batches: seq<set<Tag>>, parts: seq<seq<Tag>>)
    requires Standing(job, left, tags, log, batches, parts)
    ensures NoRepeats(log) && Elements(log) !! left && left * job.untagSet <= tags
    ensures Greedy(job, batches) && OrderOf(batches, parts) && log == Flat(parts)
    ensures left == PendingOf(job) - Applied(batches) && tags == TagsAfter(job, Applied(batches))
  {
    hide Greedy, OrderOf, Respects, Elements, NoRepeats, Flat;
    ProgressMeans(job.tagSet, job.untagSet, job.tags0, left, tags, log);
  }

  /** Nothing ready means that there are no fitting levels, and no schedule. */
  lemma Stuck(job: Job, left: set<Tag>, tags: set<Tag>, log: seq<Tag>, batches: seq<set<Tag>>, parts: seq<seq<Tag>>)
    requires Standing(job, left, tags, log, batches, parts) && left != {}
    requires forall t :: t in left && t in job.deps ==> !Ready(job.deps, t, tags)
    ensures !Workable(job)
    ensures job.untagSet == {} ==> !Schedulable(job.deps, job.tags0, PendingOf(job))
  {
    hide Greedy, OrderOf, Respects, Elements, NoRepeats, Flat, Ready, Schedulable, Workable;
    StandingMeans(job, left, tags, log, batches, parts);
    ProgressMeans(job.tagSet, job.untagSet, job.tags0, left, tags, log);
    assert ReadyIn(job, Applied(batches)) == {};
    StuckMeansUnworkable(job, batches);
    if job.untagSet == {} { StuckMeansUnschedulable(job.deps, job.tags0, PendingOf(job), tags, left); }
  }

  /** The new entries of the log are the round in some order. */
  lemma NewPart(log: seq<Tag>, log': seq<Tag>, ready: set<Tag>)
    requires NoRepeats(log') && log <= log' && Elements(log') == Elements(log) + ready && Elements(log) !! ready
    ensures NoRepeats(log'[|log|..]) && Elements(log'[|log|..]) == ready && log' == log + log'[|log|..]
  {
    var part := log'[|log|..];
    forall t
      ensures t in Elements(part) <==> t in ready
    {
      if t in Elements(part) {
        var i :| 0 <= i < |part| && part[i] == t;
        assert log'[|log| + i] == t && t in Elements(log');
        NotInFront(log, log', |log| + i);
      }
      if t in ready {
        assert t in Elements(log') && t !in Elements(log);
        var i :| 0 <= i < |log'| && log'[i] == t;
        assert i >= |log| && part[i - |log|] == t;
      }
    }
  }

  lemma NotInFront(log: seq<Tag>, log': seq<Tag>, i: nat)
    requires NoRepeats(log') && log <= log' && |log| <= i < |log'|
    ensures log'[i] !in log
  {
    assert forall k :: 0 <= k < |log| ==> log[k] == log'[k] && log'[k] != log'[i];
  }

  lemma OrderMore(batches: seq<set<Tag>>, parts: seq<seq<Tag>>, ready: set<Tag>, part: seq<Tag>)
    requires OrderOf(batches, parts) && NoRepeats(part) && Elements(part) == ready
    ensures OrderOf(batches + [ready], parts + [part]) && Flat(parts + [part]) == Flat(parts) + part
  {
    hide NoRepeats, Elements;
    assert (parts + [part])[..|parts|] == parts;
  }

  lemma StandingStep(job: Job, left: set<Tag>, tags: set<Tag>, log: seq<Tag>, batches: seq<set<Tag>>,
                     parts: seq<seq<Tag>>, ready: set<Tag>, tags': set<Tag>, log': seq<Tag>)
    requires Standing(job, left, tags, log, batches, parts)
    requires forall t :: t in ready <==> t in left && t in job.deps && Ready(job.deps, t, tags)
    requires NoRepeats(log') && log <= log' && Elements(log') == Elements(log) + ready
    requires tags' == (tags + ready * job.tagSet) - ready * job.untagSet
    ensures Standing(job, left - ready, tags', log', batches + [ready], parts + [log'[|log|..]])
  {
    hide Greedy, OrderOf, Respects, Ready, Elements, NoRepeats, Progress, Flat;
    StandingMeans(job, left, tags, log, batches, parts);
    ProgressMeans(job.tagSet, job.untagSet, job.tags0, left, tags, log);
    ProgressStep(job.tagSet, job.untagSet, job.tags0, left, tags, log, ready, tags', log');
    assert ready == ReadyIn(job, Applied(batches));
    GreedyMore(job, batches);
    NewPart(log, log', ready);
    OrderMore(batches, parts, ready, log'[|log|..]);
    if job.untagSet == {} { RespectsMore(job.deps, job.tags0, log, log'); }
  }

  lemma StandingDone(job: Job, tags: set<Tag>, log: seq<Tag>, batches: seq<set<Tag>>, parts: seq<seq<Tag>>)
    requires Standing(job, {}, tags, log, batches, parts)
    ensures NoRepeats(log) && Elements(log) == PendingOf(job) == Applied(batches)
    ensures tags == (job.tags0 + job.tagSet) - job.untagSet
    ensures ValidJob(job) && Greedy(job, batches) && OrderOf(batches, parts) && log == Flat(parts) && Workable(job)
    ensures job.untagSet == {} ==>
              IsSchedule(job.deps, job.tags0, PendingOf(job), log) && Schedulable(job.deps, job.tags0, PendingOf(job))
    ensures EveryOrderKeeps(job, batches) <==> NoDependence(job)
  {
    hide Greedy, OrderOf, Respects, Elements, NoRepeats, Progress, Schedulable, IsSchedule, Flat;
    hide IsLevel, Fits, EveryOrderKeeps, NoDependence, Workable;
    ProgressDone(job.tagSet, job.untagSet, job.tags0, tags, log);
    DoneMeansWorkable(job, batches);
    EveryOrderIff(job, LevelsOf(batches), batches);
    if job.untagSet == {} { ScheduleFound(job.deps, job.tags0, PendingOf(job), log); }
  }

  lemma SmallerBy(left: set<Tag>, ready: set<Tag>)
    requires ready <= left && ready != {}
    ensures |left - ready| < |left|
  {
    assert left == (left - ready) + ready;
  }

  // ----- Turning forward dependencies around -----

  ghost predicate SameButDepends(before: Table, after: Table) {
    before.Keys == after.Keys && forall t :: t in before ==>
      after[t].fwdDepends == before[t].fwdDepends && after[t].isUpgrader == before[t].isUpgrader
  }

  /** `tag` has been added to the dependencies of the tags `fwd`. */
  ghost predicate Forwarded(before: Table, after: Table, tag: Tag, fwd: seq<Tag>) {
    SameButDepends(before, after) && forall t :: t in before ==>
      Elements(after[t].depends) == Elements(before[t].depends) + if t in fwd then {tag} else {}
  }

  lemma ForwardNone(table: Table, tag: Tag)
    ensures Forwarded(table, table, tag, [])
  {
  }

  lemma ForwardStep(before: Table, mid: Table, tag: Tag, fwd: seq<Tag>, k: nat)
    requires k < |fwd| && Forwarded(before, mid, tag, fwd[..k]) && fwd[k] in mid
    ensures Forwarded(before, mid[fwd[k] := mid[fwd[k]].(depends := mid[fwd[k]].depends + [tag])], tag, fwd[..k + 1])
  {
    ElementsAppend(mid[fwd[k]].depends, tag);
    assert fwd[..k + 1] == fwd[..k] + [fwd[k]];
  }

  /** The tags in `seen` have been dealt with. */
  ghost predicate PartlyResolved(table: Table, now: Table, seen: set<Tag>) {
    && SameButDepends(table, now) && seen <= table.Keys
    && (forall t :: t in table ==>
         Elements(now[t].depends) == Elements(table[t].depends) + Forwarders(table, seen, t))
    && (forall u :: u in seen ==> Known(table, u))
  }

  lemma ResolveNone(table: Table)
    ensures PartlyResolved(table, table, {})
  {
  }

  lemma UnknownForward(table: Table, tag: Tag)
    requires tag in table && !(forall d :: d in table[tag].fwdDepends ==> d in table)
    ensures !AllKnown(table)
  {
    assert !Known(table, tag);
  }

  lemma ForwardersStep(table: Table, seen: set<Tag>, tag: Tag, t: Tag)
    requires seen <= table.Keys && tag in table
    ensures Forwarders(table, seen + {tag}, t) ==
            Forwarders(table, seen, t) + if t in table[tag].fwdDepends then {tag} else {}
  {
  }

  lemma ResolveStepDepends(table: Table, before: Table, after: Table, seen: set<Tag>, tag: Tag, t: Tag)
    requires PartlyResolved(table, before, seen) && tag in table && t in table
    requires Forwarded(before, after, tag, before[tag].fwdDepends)
    ensures Elements(after[t].depends) == Elements(table[t].depends) + Forwarders(table, seen + {tag}, t)
  {
    hide Elements, Forwarders;
    ForwardersStep(table, seen, tag, t);
  }

  /** What the audit of `tag` sees beyond its own dependencies are known tags. */
  lemma AuditSeesOwn(table: Table, after: Table, seen: set<Tag>, tag: Tag)
    requires tag in table && SameButDepends(table, after) && seen <= table.Keys
    requires Elements(after[tag].depends) == Elements(table[tag].depends) + Forwarders(table, seen, tag)
    ensures (forall d :: d in after[tag].depends ==> d in after) <==>
            (forall d :: d in table[tag].depends ==> d in table)
  {
    assert forall d :: d in after[tag].depends <==> d in Elements(after[tag].depends);
    assert forall d :: d in table[tag].depends <==> d in Elements(table[tag].depends);
  }

  lemma ResolveStep(table: Table, before: Table, after: Table, seen: set<Tag>, tag: Tag, ok: bool)
    requires PartlyResolved(table, before, seen) && tag in table
    requires Forwarded(before, after, tag, before[tag].fwdDepends)
    requires forall d :: d in table[tag].fwdDepends ==> d in table
    requires ok <==> forall d :: d in after[tag].depends ==> d in after
    ensures if ok then PartlyResolved(table, after, seen + {tag}) else !AllKnown(table)
  {
    hide Elements, Forwarders;
    forall t | t in table
      ensures Elements(after[t].depends) == Elements(table[t].depends) + Forwarders(table, seen + {tag}, t)
    {
      ResolveStepDepends(table, before, after, seen, tag, t);
    }
    AuditSeesOwn(table, after, seen + {tag}, tag);
    assert ok <==> Known(table, tag);
    hide Known;
  }

  lemma ResolveAll(table: Table, now: Table)
    requires PartlyResolved(table, now, table.Keys)
    ensures AllKnown(table) && Deps(now) == Resolved(table)
  {
  }

  lemma ElementsAppend(log: seq<Tag>, t: Tag)
    ensures Elements(log + [t]) == Elements(log) + {t}
  {
  }

  ghost function VersionsFrom(legacy: map<int, Tag>, i: int): set<int> { set k | k in legacy && k >= i }

  lemma VersionsShrink(legacy: map<int, Tag>, i: int)
    requires i in legacy
    ensures |VersionsFrom(legacy, i + 1)| < |VersionsFrom(legacy, i)|
  {
    assert VersionsFrom(legacy, i) == VersionsFrom(legacy, i + 1) + {i};
  }

  // ----- Linking legacy versions -----

  ghost predicate Linkable(table: Table, legacy: map<int, Tag>, upto: int) {
    && (forall i :: i in legacy ==> legacy[i] in table)
    && (upto >= 3 ==> forall i :: 2 <= i <= upto ==> i in legacy)
  }

  /** The table after versions 3..upto have been made to depend on the version before. */
  ghost function LinkTable(table: Table, legacy: map<int, Tag>, upto: int): (r: Table)
    requires Linkable(table, legacy, upto)
    ensures r.Keys == table.Keys
    decreases upto
  {
    if upto < 3 then table
    else
      var before := LinkTable(table, legacy, upto - 1);
      before[legacy[upto] := before[legacy[upto]].(depends := [legacy[upto - 1]])]
  }

  lemma LinkTableStart(table: Table, legacy: map<int, Tag>)
    requires forall i :: i in legacy ==> legacy[i] in table
    ensures Linkable(table, legacy, 2) && LinkTable(table, legacy, 2) == table
  {
  }

  lemma LinkTableStep(table: Table, legacy: map<int, Tag>, i: int)
    requires i >= 3 && Linkable(table, legacy, i - 1) && i in legacy && i - 1 in legacy
    ensures Linkable(table, legacy, i)
    ensures var before := LinkTable(table, legacy, i - 1);
            LinkTable(table, legacy, i) == before[legacy[i] := before[legacy[i]].(depends := [legacy[i - 1]])]
  {
  }

  lemma {:induction false} LinkTableKeeps(table: Table, legacy: map<int, Tag>, upto: int)
    requires Linkable(table, legacy, upto)
    ensures var r := LinkTable(table, legacy, upto);
            r.Keys == table.Keys && forall t :: t in table ==>
              r[t].fwdDepends == table[t].fwdDepends && r[t].isUpgrader == table[t].isUpgrader
    decreases upto
  {
    if upto >= 3 { LinkTableKeeps(table, legacy, upto - 1); }
  }

  lemma {:induction false} LinkTableDepends(table: Table, legacy: map<int, Tag>, upto: int, t: Tag)
    requires Linkable(table, legacy, upto) && t in table
    requires forall i, j :: i in legacy && j in legacy && i != j ==> legacy[i] != legacy[j]
    ensures forall i :: 3 <= i <= upto && legacy[i] == t ==>
              LinkTable(table, legacy, upto)[t].depends == [legacy[i - 1]]
    ensures (forall i :: 3 <= i <= upto ==> legacy[i] != t) ==>
              LinkTable(table, legacy, upto)[t].depends == table[t].depends
    decreases upto
  {
    if upto >= 3 { LinkTableDepends(table, legacy, upto - 1, t); }
  }
}
