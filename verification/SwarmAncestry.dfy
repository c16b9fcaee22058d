/**
 Ancestry of waves and tasks as the scheduler follows it: parent links lead to smaller ids, so
 the walks end by themselves.
 */
module SwarmAncestry {
  import opened Common
  import opened SwarmModel
  import opened SwarmInvariant

  /** The links alone: parents of waves, and the specs of tasks. */
  datatype Links = Links(waves: seq<Parent>, specs: seq<TaskSpec>)

  function LinksOf(st: State): (r: Links)
    ensures |r.waves| == |st.waves| && |r.specs| == |st.tasks|
    ensures forall w :: 0 <= w < |st.waves| ==> r.waves[w] == st.waves[w].parent
    ensures forall i :: 0 <= i < |st.tasks| ==> r.specs[i] == st.tasks[i].spec
  {
    Links(seq(|st.waves|, w requires 0 <= w < |st.waves| => st.waves[w].parent),
          seq(|st.tasks|, i requires 0 <= i < |st.tasks| => st.tasks[i].spec))
  }

  /** The wave above a wave: its parent wave, else the wave of its parent task. */
  function Up(links: Links, w: nat): Option<nat>
    requires w < |links.waves|
  {
    var p := links.waves[w];
    if p.wave.Some? then p.wave
    else if p.task.Some? && p.task.value < |links.specs| then links.specs[p.task.value].wave
    else None
  }

  /** Every link leads to a smaller id. */
  ghost predicate Descending(links: Links) {
    && (forall w :: 0 <= w < |links.waves| ==> var u := Up(links, w); u.Some? ==> u.value < w)
    && (forall i :: 0 <= i < |links.specs| ==>
          && (links.specs[i].wave.Some? ==> links.specs[i].wave.value < |links.waves|)
          && (links.specs[i].parent.wave.Some? ==> links.specs[i].parent.wave.value < |links.waves|)
          && (links.specs[i].parent.task.Some? ==> links.specs[i].parent.task.value < i))
  }

  lemma InvDescends(config: Config, st: State, stale: set<nat>)
    requires Inv(config, st, stale)
    ensures Descending(LinksOf(st))
  {
    var links := LinksOf(st);
    forall w | 0 <= w < |links.waves| ensures var u := Up(links, w); u.Some? ==> u.value < w {
      assert WaveLinks(st.tasks, st.waves[w], w);
    }
    forall i | 0 <= i < |links.specs|
      ensures links.specs[i].wave.Some? ==> links.specs[i].wave.value < |links.waves|
      ensures links.specs[i].parent.wave.Some? ==> links.specs[i].parent.wave.value < |links.waves|
      ensures links.specs[i].parent.task.Some? ==> links.specs[i].parent.task.value < i
    {
      assert TaskOk(|st.agents|, |st.waves|, st.nextQueue, st.tasks[i], i);
    }
  }

  /** Some wave strictly above `w` is `ancestor`. */
  ghost predicate Below(links: Links, w: nat, ancestor: nat)
    requires Descending(links) && w < |links.waves|
    decreases w
  {
    var u := Up(links, w);
    u.Some? && (u.value == ancestor || Below(links, u.value, ancestor))
  }

  ghost predicate InTree(links: Links, w: nat, ancestor: nat)
    requires Descending(links) && w < |links.waves|
  {
    w == ancestor || Below(links, w, ancestor)
  }

  /** The task's own wave, its parent wave, or a task above it lies in the tree of `ancestor`. */
  ghost predicate Under(links: Links, i: nat, ancestor: nat)
    requires Descending(links) && i < |links.specs|
    decreases i
  {
    var s := links.specs[i];
    || (s.wave.Some? && InTree(links, s.wave.value, ancestor))
    || UnderParents(links, i, ancestor)
  }

  /** The same, through the task's parents only. */
  ghost predicate UnderParents(links: Links, i: nat, ancestor: nat)
    requires Descending(links) && i < |links.specs|
    decreases i, 0
  {
    var s := links.specs[i];
    || (s.parent.wave.Some? && InTree(links, s.parent.wave.value, ancestor))
    || (s.parent.task.Some? && Under(links, s.parent.task.value, ancestor))
  }

  /** wave_is_descendant: the visited set is never what stops the walk. */
  method WaveIsDescendant(links: Links, candidate: nat, ancestor: nat, includeCandidate: bool) returns (r: bool)
    requires Descending(links) && candidate < |links.waves|
    ensures r <==> (includeCandidate && candidate == ancestor) || Below(links, candidate, ancestor)
  {
    if includeCandidate && candidate == ancestor { return true; }
    var visited: set<nat> := {};
    var current: nat := candidate;
    while current !in visited
      invariant current < |links.waves| && forall v :: v in visited ==> current < v
      invariant Below(links, candidate, ancestor) <==> Below(links, current, ancestor)
      decreases current, current !in visited
    {
      visited := visited + {current};
      var u := Up(links, current);
      if u.None? { return false; }
      current := u.value;
      if current == ancestor { return true; }
    }
    assert false;
  }

  /** task_belongs_to_wave_tree with descendants. */
  method TaskBelongs(links: Links, i: nat, ancestor: nat) returns (r: bool)
    requires Descending(links) && i < |links.specs|
    ensures r <==> Under(links, i, ancestor)
  {
    if links.specs[i].wave.Some? {
      var own := WaveIsDescendant(links, links.specs[i].wave.value, ancestor, true);
      if own { return true; }
    }
    var visited: set<nat> := {};
    var current: nat := i;
    while current !in visited
      invariant current < |links.specs| && forall v :: v in visited ==> current < v
      invariant Under(links, i, ancestor) <==> UnderParents(links, current, ancestor)
      decreases current, current !in visited
    {
      visited := visited + {current};
      var parent := links.specs[current].parent;
      if parent.wave.Some? {
        var above := WaveIsDescendant(links, parent.wave.value, ancestor, true);
        if above { return true; }
      }
      if parent.task.None? { return false; }
      current := parent.task.value;
      if links.specs[current].wave.Some? {
        var own := WaveIsDescendant(links, links.specs[current].wave.value, ancestor, true);
        if own { return true; }
      }
    }
    assert false;
  }
}
