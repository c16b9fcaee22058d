/**
 Whole runs of the KV tier: appends, failures, rollbacks, power losses and recoveries one after the
 other (src/axiom_qwen38_kv_tier.cpp, tools/axiom_qwen38_api.cpp).
 */
module KvTierRuns {
  import opened Common
  import opened KvTier

  /** What a session wants saved. */
  datatype Request = Request(contents: map<Slot, nat>, target: nat, manifest: Manifest)

  /** The append of a request to what the disk shows. */
  function TxOf(d: Disk, pages: nat, generation: nat, r: Request): Tx {
    Tx(pages, d.manifest.committed, r.target, generation, d.manifest, r.manifest, d.pages, r.contents)
  }

  /** The request extends any whole disk: it keeps the pages before the last one, and recovery could tell it apart. */
  ghost predicate Proper(d: Disk, pages: nat, generation: nat, r: Request) {
    FullPages(d.pages, pages) && 0 < d.manifest.committed <= pages * PAGE_TOKENS ==>
      WellFormed(TxOf(d, pages, generation, r)) && Distinguished(TxOf(d, pages, generation, r))
  }

  ghost predicate StartsFrom(next: Tx, v: Volume, pages: nat, generation: nat) {
    && WellFormed(next) && next.pages == pages && next.generation == generation
    && next.oldManifest == v.seen.manifest && next.oldPages == v.seen.pages
  }

  /** Any append may start from what is there. */
  ghost predicate Ready(v: Volume, pages: nat, generation: nat) {
    && v.seen.journal == None && v.manifests == {v.seen.manifest}
    && v.seen.header == Header(true, generation, v.seen.manifest.committed)
    && FullPages(v.seen.pages, pages) && 0 < v.seen.manifest.committed <= pages * PAGE_TOKENS
    && forall next :: StartsFrom(next, v, pages, generation) ==> Idle(next, v)
  }

  lemma SettledReady(tx: Tx, v: Volume)
    requires Settled(tx, v) && v.seen.journal == None && v.manifests == {v.seen.manifest} && Distinguished(tx)
    ensures Ready(v, tx.pages, tx.generation)
  {
    forall next | StartsFrom(next, v, tx.pages, tx.generation) ensures Idle(next, v) { SettledStartsNext(tx, next, v); }
  }

  lemma IdleReady(tx: Tx, v: Volume)
    requires Idle(tx, v) && v.journals == {None}
    ensures Ready(v, tx.pages, tx.generation)
  {
    IdleIsDurable(tx, v);
    forall next | StartsFrom(next, v, tx.pages, tx.generation) ensures Idle(next, v) {
      forall s | s in next.oldPages && s.page < next.base / PAGE_TOKENS ensures s !in v.dirtyPages {
        assert Covered(s, next.base);
      }
    }
  }

  /** The disk shows this manifest, with its header and every page it covers. */
  ghost predicate Shows(d: Disk, m: Manifest, pages: map<Slot, nat>) {
    && d.manifest == m && d.header.valid && d.header.committed == m.committed
    && forall s :: s in pages && Covered(s, m.committed) ==> s in d.pages && d.pages[s] == pages[s]
  }

  /** What was saved, one entry for each append that took effect; `acked` for those reported as saved. */
  datatype Saved = Saved(manifest: Manifest, pages: map<Slot, nat>, acked: bool)

  /** The disk has every page the entry filled, as it was saved. */
  ghost predicate Holds(d: Disk, e: Saved) {
    && e.manifest.committed <= d.manifest.committed
    && forall s :: s in e.pages && s.page < e.manifest.committed / PAGE_TOKENS ==> s in d.pages && d.pages[s] == e.pages[s]
  }

  /** The log ends with what the disk shows, and the disk has the filled pages of every entry. */
  ghost predicate Logged(log: seq<Saved>, d: Disk) {
    && (log != [] && var last := log[|log| - 1]; Shows(d, last.manifest, last.pages))
    && forall i :: 0 <= i < |log| ==> Holds(d, log[i])
  }

  ghost predicate AppendsTo(tx: Tx, was: Disk) {
    WellFormed(tx) && tx.oldManifest == was.manifest && tx.oldPages == was.pages
  }

  /** Filled pages are those before the base page, which no append changes. */
  lemma FilledStay(tx: Tx, d: Disk, was: Disk, e: Saved)
    requires AppendsTo(tx, was) && (AllOld(tx, d) || AllNew(tx, d)) && Holds(was, e)
    ensures Holds(d, e)
  {
    forall s | s in e.pages && s.page < e.manifest.committed / PAGE_TOKENS ensures s in d.pages && d.pages[s] == e.pages[s] {
      assert s.page < tx.base / PAGE_TOKENS && Covered(s, tx.base) && Covered(s, tx.target);
    }
  }

  lemma NewLogged(tx: Tx, d: Disk, was: Disk, log: seq<Saved>, e: Saved)
    requires AppendsTo(tx, was) && AllNew(tx, d) && Logged(log, was) && e.manifest == tx.newManifest && e.pages == tx.newPages
    ensures Logged(log + [e], d)
  {
    forall i | 0 <= i < |log| ensures Holds(d, log[i]) { FilledStay(tx, d, was, log[i]); }
  }

  lemma OldLogged(tx: Tx, d: Disk, was: Disk, log: seq<Saved>)
    requires AppendsTo(tx, was) && AllOld(tx, d) && Logged(log, was)
    ensures Logged(log, d)
  {
    forall i | 0 <= i < |log| ensures Holds(d, log[i]) { FilledStay(tx, d, was, log[i]); }
  }

  /** Nothing in flight, and the watermark in memory is the one on disk. */
  ghost predicate Serving(tier: Tier)
    reads tier
  {
    && Ready(tier.vol, tier.pages, tier.generation) && tier.committed == tier.vol.seen.manifest.committed <= tier.maxContext
    && tier.completions == []
  }

  /** After a failure the machine goes down and recovery is tried until it completes, or is given up. */
  method ComeBack(tier: Tier, rounds: nat, ghost tx: Tx) returns (ok: bool)
    requires Safe(tx, tier.vol) && Distinguished(tx) && tx.pages == tier.pages && tx.target <= tier.maxContext
    modifies tier
    ensures tier.exposed == old(tier.exposed)
    ensures ok ==> Serving(tier) && tier.generation == tx.generation && (AllOld(tx, tier.vol.seen) || AllNew(tx, tier.vol.seen))
    ensures ok ==> tier.vol.seen.manifest in old(tier.vol).manifests
  {
    var d: Disk := *;
    if !Survivor(tier.vol, d) { d := tier.vol.seen; }
    tier.Restart(d, tx);
    var rc := tier.RecoverThroughCrashes(rounds, tx);
    if rc != Ok { return false; }
    SettledReady(tx, tier.vol);
    tier.Reopen();
    ok := true;
  }

  /** One request, with whatever happens to it; the log grows by it or stays. */
  method Save(tier: Tier, r: Request, rounds: nat, ghost log: seq<Saved>) returns (ok: bool, saved: bool, ghost log': seq<Saved>)
    requires Serving(tier) && Logged(log, tier.vol.seen) && r.target <= tier.maxContext
    requires var tx := TxOf(tier.vol.seen, tier.pages, tier.generation, r); WellFormed(tx) && Distinguished(tx)
    modifies tier
    ensures tier.exposed == old(tier.exposed)
    ensures saved ==> log' == log + [Saved(r.manifest, r.contents, true)]
    ensures !saved ==> log' == log || log' == log + [Saved(r.manifest, r.contents, false)]
    ensures ok ==> Serving(tier) && tier.generation == old(tier.generation) && Logged(log', tier.vol.seen)
  {
    ghost var tx, was := TxOf(tier.vol.seen, tier.pages, tier.generation, r), tier.vol.seen;
    assert StartsFrom(tx, tier.vol, tier.pages, tier.generation);
    var rc, rolledBack, attempted := tier.Append(r.contents, tier.committed, r.target, r.manifest, tx);
    log', ok, saved := log, true, rc == Ok;
    if rc == Ok {
      SettledReady(tx, tier.vol);
      log' := log + [Saved(r.manifest, r.contents, true)];
      NewLogged(tx, tier.vol.seen, was, log, log'[|log|]);
    } else if rolledBack == Some(Ok) {
      IdleReady(tx, tier.vol);
      OldLogged(tx, tier.vol.seen, was, log);
    } else {
      ok := ComeBack(tier, rounds, tx);
      if ok {
        if AllNew(tx, tier.vol.seen) {
          log' := log + [Saved(r.manifest, r.contents, false)];
          NewLogged(tx, tier.vol.seen, was, log, log'[|log|]);
        } else {
          OldLogged(tx, tier.vol.seen, was, log);
        }
      }
    }
  }

  /** The machine goes down while nothing is in flight. */
  method Crash(tier: Tier, r: Request, rounds: nat, ghost log: seq<Saved>) returns (ok: bool)
    requires Serving(tier) && Logged(log, tier.vol.seen) && r.target <= tier.maxContext
    requires var tx := TxOf(tier.vol.seen, tier.pages, tier.generation, r); WellFormed(tx) && Distinguished(tx)
    modifies tier
    ensures tier.exposed == old(tier.exposed)
    ensures ok ==> Serving(tier) && tier.generation == old(tier.generation) && Logged(log, tier.vol.seen)
  {
    ghost var tx, was := TxOf(tier.vol.seen, tier.pages, tier.generation, r), tier.vol.seen;
    assert StartsFrom(tx, tier.vol, tier.pages, tier.generation);
    ok := ComeBack(tier, rounds, tx);
    if ok { OldLogged(tx, tier.vol.seen, was, log); }
  }

  /** The session asks for appends within the context whenever what the disk shows is. */
  ghost predicate Asks(ask: (Disk, nat) -> Request, pages: nat, generation: nat, maxContext: nat) {
    forall d: Disk, k: nat :: d.manifest.committed <= maxContext ==>
      Proper(d, pages, generation, ask(d, k)) && ask(d, k).target <= maxContext
  }

  /** The next token, as long as the context has room for one. */
  function NextToken(d: Disk, maxContext: nat): Request {
    var target := if d.manifest.committed < maxContext then d.manifest.committed + 1 else d.manifest.committed;
    Request(d.pages, target, d.manifest.(version := d.manifest.version + 1, committed := target))
  }

  /** Whatever the context, there is a session that asks until it is full. */
  lemma FillsContext(pages: nat, generation: nat, maxContext: nat)
    requires maxContext <= pages * PAGE_TOKENS
    ensures Asks((d: Disk, k: nat) => NextToken(d, maxContext), pages, generation, maxContext)
  {
  }

  /** A whole run: whatever is asked and whatever fails, at no moment would a power loss leave a disk that recovery does
      not make whole; and unless recovery is given up, the disk shows the last entry of the log and has the filled pages
      of every earlier one, back to those logged before the run. */
  method Run(tier: Tier, ask: (Disk, nat) -> Request, n: nat, rounds: nat, ghost log: seq<Saved>) returns (ok: bool, ghost log': seq<Saved>)
    requires Serving(tier) && Logged(log, tier.vol.seen)
    requires Asks(ask, tier.pages, tier.generation, tier.maxContext)
    modifies tier
    ensures tier.exposed == old(tier.exposed) && log <= log'
    ensures ok ==> Serving(tier) && Logged(log', tier.vol.seen)
  {
    log', ok := log, true;
    for k := 0 to n
      invariant ok && tier.exposed == old(tier.exposed) && tier.generation == old(tier.generation)
      invariant log <= log' && Serving(tier) && Logged(log', tier.vol.seen)
    {
      var r := ask(tier.vol.seen, k);
      assert Proper(tier.vol.seen, tier.pages, tier.generation, r);
      var crash: bool, saved: bool := *, *;
      if crash {
        ok := Crash(tier, r, rounds, log');
      } else {
        ok, saved, log' := Save(tier, r, rounds, log');
      }
      if !ok { return; }
    }
  }
}
