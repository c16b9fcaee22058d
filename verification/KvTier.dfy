/**
 The persistent KV tier file, its undo journal and the session manifest
 (src/axiom_qwen38_kv_tier.cpp, the publish step of src/axiom_qwen38_session_store.cpp,
 sequenced as in tools/axiom_qwen38_api.cpp).

 A file system call may fail, may tear the bytes it was writing, and power may be lost
 during it.  What is visible to the running process (`seen`) is kept apart from what a
 restart may expose: an unsynced header or page may hold anything, and an unsynced
 directory may hold any entry it held since its last sync.
 */
module KvTier {
  import opened Common

  const PAGE_TOKENS: nat := 256
  const TARGET_LAYERS: nat := 16
  const DSPARK_LAYERS: nat := 5
  const RECORDS: nat := 21
  const QUEUE_DEPTH: nat := 64

  datatype Status = Ok | InvalidArgument | Budget | IoError

  datatype Family = Target | Dspark

  /** One fixed-size page record of the tier file. */
  datatype Slot = Slot(family: Family, layer: nat, page: nat)

  /** `valid` stands for the magic, geometry and checksum comparisons of valid_header. */
  datatype Header = Header(valid: bool, generation: nat, committed: nat)

  /** `version` distinguishes manifests that happen to carry the same token count. */
  datatype Manifest = Manifest(intact: bool, version: nat, committed: nat)

  /** `intact` stands for the magic, size and checksum comparisons of the journal. */
  datatype Journal = Journal(intact: bool, base: nat, oldHeader: Header, records: seq<nat>)

  /** What a process reads: tier header, page records, journal and manifest. */
  datatype Disk = Disk(header: Header, pages: map<Slot, nat>,
                       journal: Option<Journal>, manifest: Manifest)

  datatype Temp<T> = Temp(content: T, synced: bool)

  datatype Volume = Volume(
    seen: Disk,
    dirtyHeader: bool,
    dirtyPages: set<Slot>,
    journals: set<Option<Journal>>,
    manifests: set<Manifest>,
    tornJournal: bool,
    tornManifest: bool,
    journalTemp: Option<Temp<Journal>>,
    manifestTemp: Option<Temp<Manifest>>)

  /** One append transaction: both sides of the transition it must make atomic. */
  datatype Tx = Tx(pages: nat, base: nat, target: nat, generation: nat,
                   oldManifest: Manifest, newManifest: Manifest,
                   oldPages: map<Slot, nat>, newPages: map<Slot, nat>)

  // ---------------------------------------------------------------- geometry

  function LayersOf(family: Family): nat {
    if family.Target? then TARGET_LAYERS else DSPARK_LAYERS
  }

  predicate InPlan(s: Slot, pages: nat) {
    s.page < pages && s.layer < LayersOf(s.family)
  }

  /** The slot of journal record `i`: all target layers, then all draft layers. */
  function RecordSlot(i: nat, page: nat): Slot {
    if i < TARGET_LAYERS then Slot(Target, i, page) else Slot(Dspark, i - TARGET_LAYERS, page)
  }

  /** Slot `s` holds at least one of the first `count` tokens. */
  predicate Covered(s: Slot, count: nat) {
    s.page * PAGE_TOKENS < count
  }

  function RecordCount(base: nat): nat {
    if base % PAGE_TOKENS == 0 then 0 else RECORDS
  }

  ghost predicate FullPages(pages: map<Slot, nat>, n: nat) {
    forall s :: s in pages <==> InPlan(s, n)
  }

  // ------------------------------------------------------------ transactions

  function OldHeader(tx: Tx): Header { Header(true, tx.generation, tx.base) }

  function NewHeader(tx: Tx): Header { Header(true, tx.generation, tx.target) }

  /** A well-formed append: it starts from a non-empty prefix, never shrinks it, fits the
      plan and leaves every page before the base page alone. */
  ghost predicate WellFormed(tx: Tx) {
    && 0 < tx.base <= tx.target <= tx.pages * PAGE_TOKENS
    && tx.oldManifest.committed == tx.base
    && tx.newManifest.committed == tx.target
    && tx.oldManifest != tx.newManifest
    && FullPages(tx.oldPages, tx.pages)
    && FullPages(tx.newPages, tx.pages)
    && (forall s :: s in tx.oldPages && s.page < tx.base / PAGE_TOKENS ==> tx.newPages[s] == tx.oldPages[s])
  }

  lemma TailPageInPlan(tx: Tx, i: nat)
    requires WellFormed(tx)
    requires tx.base % PAGE_TOKENS != 0 && i < RECORDS
    ensures InPlan(RecordSlot(i, tx.base / PAGE_TOKENS), tx.pages)
  {
  }

  ghost function TxJournal(tx: Tx): Journal
    requires WellFormed(tx)
  {
    var page := tx.base / PAGE_TOKENS;
    Journal(true, tx.base, OldHeader(tx),
            seq(RecordCount(tx.base), (i: nat) requires i < RecordCount(tx.base) =>
              TailPageInPlan(tx, i); tx.oldPages[RecordSlot(i, page)]))
  }

  /** Manifest, header and every page below the manifest's count are the old ones. */
  ghost predicate AllOld(tx: Tx, d: Disk) {
    && d.manifest == tx.oldManifest
    && d.header == OldHeader(tx)
    && (forall s :: s in tx.oldPages && Covered(s, tx.base) ==> s in d.pages && d.pages[s] == tx.oldPages[s])
  }

  ghost predicate AllNew(tx: Tx, d: Disk) {
    && d.manifest == tx.newManifest
    && d.header == NewHeader(tx)
    && (forall s :: s in tx.newPages && Covered(s, tx.target) ==> s in d.pages && d.pages[s] == tx.newPages[s])
  }

  // ------------------------------------------------- recovery, as a function

  predicate JournalLoads(j: Journal) {
    && j.intact
    && j.oldHeader.valid
    && j.base == j.oldHeader.committed
    && |j.records| == RecordCount(j.base)
  }

  /** The pages after the first `n` journal records were written back. */
  function Restored(pages: map<Slot, nat>, records: seq<nat>, page: nat, n: nat): (r: map<Slot, nat>)
    requires n <= |records|
  {
    if n == 0 then pages
    else Restored(pages, records, page, n - 1)[RecordSlot(n - 1, page) := records[n - 1]]
  }

  /** recover_file on a disk where every call succeeds. */
  function RecoverDisk(d: Disk): (r: (Status, Disk)) {
    match d.journal
    case None => (Ok, d)
    case Some(j) =>
      if !JournalLoads(j) then (IoError, d)
      else if d.manifest.committed == j.base then
        (Ok, d.(header := j.oldHeader,
                pages := Restored(d.pages, j.records, j.base / PAGE_TOKENS, |j.records|),
                journal := None))
      else if d.header.valid && d.header.generation == j.oldHeader.generation
              && d.header.committed == d.manifest.committed then
        (Ok, d.(journal := None))
      else (IoError, d)
  }

  /** Every record lands in its own slot and nothing else moves. */
  lemma {:induction false} RestoredContents(pages: map<Slot, nat>, records: seq<nat>, page: nat, n: nat)
    requires n <= |records| <= RECORDS
    ensures forall i :: 0 <= i < n ==>
              RecordSlot(i, page) in Restored(pages, records, page, n)
              && Restored(pages, records, page, n)[RecordSlot(i, page)] == records[i]
    ensures forall s :: s in pages ==> s in Restored(pages, records, page, n)
    ensures forall s :: s in Restored(pages, records, page, n) ==>
              s in pages || (s.page == page && s.layer < LayersOf(s.family))
    ensures forall s :: s in pages && s.page != page ==> Restored(pages, records, page, n)[s] == pages[s]
  {
    if n > 0 {
      RestoredContents(pages, records, page, n - 1);
    }
  }

  /** A second recovery of a recovered disk changes nothing, and a failed one changes nothing at all. */
  lemma RecoveryIsIdempotent(d: Disk)
    ensures RecoverDisk(d).0 == Ok ==> RecoverDisk(RecoverDisk(d).1) == (Ok, RecoverDisk(d).1)
    ensures RecoverDisk(d).0 != Ok ==> RecoverDisk(d).1 == d && d.journal.Some?
  {
  }

  // ------------------------------------------------------------ crash states

  /** `d` is a disk that a restart may find when power is lost in state `v`. */
  predicate Survivor(v: Volume, d: Disk) {
    && (!v.dirtyHeader ==> d.header == v.seen.header)
    && d.pages.Keys == v.seen.pages.Keys
    && (forall s :: s in v.seen.pages && s !in v.dirtyPages ==> d.pages[s] == v.seen.pages[s])
    && (v.tornJournal || d.journal in v.journals)
    && (v.tornManifest || d.manifest in v.manifests)
  }

  /** Recovering `d` ends with both files on the same side of the transaction. */
  ghost predicate RecoversWhole(tx: Tx, d: Disk) {
    var (status, after) := RecoverDisk(d);
    status == Ok && after.journal == None && (AllOld(tx, after) || AllNew(tx, after))
  }

  ghost predicate OldDurable(tx: Tx, v: Volume) {
    && !v.dirtyHeader && v.seen.header == OldHeader(tx)
    && (forall s :: s in tx.oldPages && Covered(s, tx.base) ==>
          s in v.seen.pages && s !in v.dirtyPages && v.seen.pages[s] == tx.oldPages[s])
  }

  ghost predicate NewDurable(tx: Tx, v: Volume) {
    && !v.dirtyHeader && v.seen.header == NewHeader(tx)
    && (forall s :: s in tx.newPages && Covered(s, tx.target) ==>
          s in v.seen.pages && s !in v.dirtyPages && v.seen.pages[s] == tx.newPages[s])
  }

  /** Pages before the base page are never journalled, so they must never be at risk. */
  ghost predicate PrefixDurable(tx: Tx, v: Volume) {
    forall s :: s in tx.oldPages && s.page < tx.base / PAGE_TOKENS ==>
      s in v.seen.pages && s !in v.dirtyPages && v.seen.pages[s] == tx.oldPages[s]
  }

  /** A journal that an earlier transaction left behind; its removal may not be durable yet. */
  predicate Foreign(tx: Tx, j: Journal) {
    JournalLoads(j) && j.base < tx.base && j.oldHeader.generation == tx.generation
  }

  /** The directory can only ever show entries of this transaction, or a journal of an earlier one. */
  ghost predicate Entries(tx: Tx, v: Volume)
    requires WellFormed(tx)
  {
    && FullPages(v.seen.pages, tx.pages)
    && !v.tornJournal && !v.tornManifest
    && v.seen.journal in v.journals
    && v.seen.manifest in v.manifests
    && (forall j :: j in v.journals ==> j == None || j == Some(TxJournal(tx)) || Foreign(tx, j.value))
    && v.manifests <= {tx.oldManifest, tx.newManifest}
  }

  /** Every directory view that may survive holds this transaction's journal. */
  ghost predicate Journalled(tx: Tx, v: Volume)
    requires WellFormed(tx)
  {
    v.journals == {Some(TxJournal(tx))}
  }

  /** The protocol's invariant: what each directory view that may survive relies on is durable. */
  ghost predicate Safe(tx: Tx, v: Volume) {
    && WellFormed(tx)
    && Entries(tx, v)
    && PrefixDurable(tx, v)
    && (tx.oldManifest in v.manifests && !Journalled(tx, v) ==> OldDurable(tx, v))
    && (tx.newManifest in v.manifests && (tx.base < tx.target || !Journalled(tx, v)) ==> NewDurable(tx, v))
  }

  lemma RollbackRestoresOld(tx: Tx, d: Disk)
    requires WellFormed(tx)
    requires FullPages(d.pages, tx.pages)
    requires d.manifest == tx.oldManifest && d.journal == Some(TxJournal(tx))
    requires forall s :: s in tx.oldPages && s.page < tx.base / PAGE_TOKENS ==> d.pages[s] == tx.oldPages[s]
    ensures RecoversWhole(tx, d) && AllOld(tx, RecoverDisk(d).1)
  {
    var j := TxJournal(tx);
    var page := tx.base / PAGE_TOKENS;
    RestoredContents(d.pages, j.records, page, |j.records|);
    var after := RecoverDisk(d).1;
    forall s | s in tx.oldPages && Covered(s, tx.base)
      ensures s in after.pages && after.pages[s] == tx.oldPages[s]
    {
      assert s.page <= page;
      if s.page == page {
        var i := if s.family.Target? then s.layer else TARGET_LAYERS + s.layer;
        assert RecordSlot(i, page) == s;
        assert i < |j.records| && j.records[i] == tx.oldPages[s];
      }
    }
  }

  /** The partial base page holds the same records on both sides. */
  ghost predicate TailUnchanged(tx: Tx)
    requires WellFormed(tx)
  {
    forall s :: s in tx.oldPages && s.page == tx.base / PAGE_TOKENS ==> tx.newPages[s] == tx.oldPages[s]
  }

  /** Recovery can tell the two sides apart, or need not. */
  ghost predicate Distinguished(tx: Tx)
    requires WellFormed(tx)
  {
    tx.base < tx.target || tx.base % PAGE_TOKENS == 0 || TailUnchanged(tx)
  }

  /** With equal counts recovery always writes the journal back, also under the new manifest. */
  lemma EqualCountsRestore(tx: Tx, d: Disk)
    requires WellFormed(tx) && Distinguished(tx) && tx.base == tx.target && FullPages(d.pages, tx.pages)
    requires d.manifest == tx.newManifest && d.journal == Some(TxJournal(tx))
    requires forall s :: s in tx.oldPages && s.page < tx.base / PAGE_TOKENS ==> d.pages[s] == tx.oldPages[s]
    ensures RecoversWhole(tx, d) && AllNew(tx, RecoverDisk(d).1)
  {
    RollbackRestoresOld(tx, d.(manifest := tx.oldManifest));
    var after := RecoverDisk(d).1;
    assert after == RecoverDisk(d.(manifest := tx.oldManifest)).1.(manifest := tx.newManifest);
    forall s | s in tx.newPages && Covered(s, tx.target) ensures s in after.pages && after.pages[s] == tx.newPages[s] {
      assert s in tx.oldPages && Covered(s, tx.base) && s.page <= tx.base / PAGE_TOKENS;
    }
  }

  /** Soundness: whatever a restart finds in a safe state, recovery completes and is all-old or all-new. */
  lemma SafeSurvivorsRecover(tx: Tx, v: Volume, d: Disk)
    requires Safe(tx, v) && Survivor(v, d) && Distinguished(tx)
    ensures RecoversWhole(tx, d)
    ensures d.manifest == tx.oldManifest ==> AllOld(tx, RecoverDisk(d).1)
    ensures d.manifest == tx.newManifest ==> AllNew(tx, RecoverDisk(d).1)
  {
    if d.journal == Some(TxJournal(tx)) {
      if d.manifest == tx.oldManifest {
        RollbackRestoresOld(tx, d);
      } else if tx.base == tx.target {
        EqualCountsRestore(tx, d);
      }
    }
  }

  /** A survivor whose header and page `s` hold the least helpful bytes still possible. */
  ghost function WorstSurvivor(v: Volume, s: Slot, good: nat, m: Manifest, j: Option<Journal>): Disk {
    Disk(if v.dirtyHeader then Header(false, 0, 0) else v.seen.header,
         if s in v.seen.pages && s in v.dirtyPages then v.seen.pages[s := good + 1] else v.seen.pages,
         j, m)
  }

  lemma WorstSurvives(v: Volume, s: Slot, good: nat, m: Manifest, j: Option<Journal>)
    requires m in v.manifests && j in v.journals
    ensures Survivor(v, WorstSurvivor(v, s, good, m, j))
  {
  }

  /** Unless the journal is written back, a disk under the new manifest must be all new beforehand. */
  lemma NewNeedsAllNew(tx: Tx, d: Disk)
    requires WellFormed(tx) && d.manifest == tx.newManifest && RecoversWhole(tx, d)
    requires d.journal == None || Foreign(tx, d.journal.value) || (d.journal == Some(TxJournal(tx)) && tx.base < tx.target)
    ensures AllNew(tx, d)
  {
  }

  lemma NewNotDurable(tx: Tx, v: Volume)
    requires WellFormed(tx) && Entries(tx, v) && (tx.base < tx.target || !Journalled(tx, v))
    requires tx.newManifest in v.manifests && !NewDurable(tx, v)
    ensures exists d :: Survivor(v, d) && !RecoversWhole(tx, d)
  {
    var s, good := Slot(Target, 0, 0), 0;
    if !v.dirtyHeader && v.seen.header == NewHeader(tx) {
      s :| s in tx.newPages && Covered(s, tx.target) && (s in v.dirtyPages || v.seen.pages[s] != tx.newPages[s]);
      good := tx.newPages[s];
    }
    var j := if tx.base < tx.target then v.seen.journal else Without(tx, v);
    var d := WorstSurvivor(v, s, good, tx.newManifest, j);
    WorstSurvives(v, s, good, tx.newManifest, j);
    if RecoversWhole(tx, d) {
      NewNeedsAllNew(tx, d);
    }
  }

  /** A directory view without this transaction's journal. */
  ghost function Without(tx: Tx, v: Volume): (j: Option<Journal>)
    requires WellFormed(tx) && Entries(tx, v) && !Journalled(tx, v)
    ensures j in v.journals && (j == None || Foreign(tx, j.value))
  {
    var own := Some(TxJournal(tx));
    assert exists j :: j in v.journals && j != own by {
      assert (forall j :: j in v.journals ==> j == own) ==> v.journals == {own};
    }
    var j :| j in v.journals && j != own;
    j
  }

  lemma OldNotDurable(tx: Tx, v: Volume)
    requires WellFormed(tx) && Entries(tx, v) && !Journalled(tx, v)
    requires tx.oldManifest in v.manifests && !OldDurable(tx, v)
    ensures exists d :: Survivor(v, d) && !RecoversWhole(tx, d)
  {
    var s, good := Slot(Target, 0, 0), 0;
    if !v.dirtyHeader && v.seen.header == OldHeader(tx) {
      s :| s in tx.oldPages && Covered(s, tx.base) && (s in v.dirtyPages || v.seen.pages[s] != tx.oldPages[s]);
      good := tx.oldPages[s];
    }
    var j := Without(tx, v);
    var d := WorstSurvivor(v, s, good, tx.oldManifest, j);
    WorstSurvives(v, s, good, tx.oldManifest, j);
    assert !AllOld(tx, d) && !RecoversWhole(tx, d);
  }

  lemma PrefixNotDurable(tx: Tx, v: Volume)
    requires WellFormed(tx) && Entries(tx, v) && !PrefixDurable(tx, v)
    ensures exists d :: Survivor(v, d) && !RecoversWhole(tx, d)
  {
    var s :| s in tx.oldPages && s.page < tx.base / PAGE_TOKENS &&
             (s in v.dirtyPages || v.seen.pages[s] != tx.oldPages[s]);
    var d := WorstSurvivor(v, s, tx.oldPages[s], v.seen.manifest, v.seen.journal);
    WorstSurvives(v, s, tx.oldPages[s], v.seen.manifest, v.seen.journal);
    assert d.pages[s] != tx.oldPages[s] && Covered(s, tx.base) && Covered(s, tx.target);
    if d.journal == Some(TxJournal(tx)) {
      var j := TxJournal(tx);
      RestoredContents(d.pages, j.records, tx.base / PAGE_TOKENS, |j.records|);
    }
    assert RecoverDisk(d).1.pages[s] == d.pages[s];
  }

  /** Sound and complete: the invariant is exactly "every disk a restart may find is recovered whole". */
  lemma SafeIffSurvivorsRecover(tx: Tx, v: Volume)
    requires WellFormed(tx) && Entries(tx, v) && Distinguished(tx)
    ensures Safe(tx, v) <==> forall d :: Survivor(v, d) ==> RecoversWhole(tx, d)
  {
    if Safe(tx, v) {
      forall d | Survivor(v, d) ensures RecoversWhole(tx, d) {
        SafeSurvivorsRecover(tx, v, d);
      }
    } else if !PrefixDurable(tx, v) {
      PrefixNotDurable(tx, v);
    } else if tx.newManifest in v.manifests && (tx.base < tx.target || !Journalled(tx, v)) && !NewDurable(tx, v) {
      NewNotDurable(tx, v);
    } else {
      OldNotDurable(tx, v);
    }
  }

  /** The volume right after a restart that found `d`: nothing is pending. */
  function Restarted(d: Disk): Volume {
    Volume(d, false, {}, {d.journal}, {d.manifest}, false, false, None, None)
  }

  /** Losing power again, at any time and any number of times, stays inside the invariant. */
  lemma RestartKeepsSafe(tx: Tx, v: Volume, d: Disk)
    requires Safe(tx, v) && Survivor(v, d)
    ensures Safe(tx, Restarted(d))
  {
  }

  lemma TailRestored(tx: Tx, d: Disk, s: Slot)
    requires WellFormed(tx) && tx.base % PAGE_TOKENS != 0
    requires d.journal == Some(TxJournal(tx)) && d.manifest.committed == tx.base
    requires s in tx.oldPages && s.page == tx.base / PAGE_TOKENS
    ensures s in RecoverDisk(d).1.pages && RecoverDisk(d).1.pages[s] == tx.oldPages[s]
  {
    var page := tx.base / PAGE_TOKENS;
    var j := TxJournal(tx);
    RestoredContents(d.pages, j.records, page, |j.records|);
    var i := if s.family.Target? then s.layer else TARGET_LAYERS + s.layer;
    assert RecordSlot(i, page) == s && j.records[i] == tx.oldPages[s];
  }

  /**
   A published transaction whose journal is still there is recovered whole exactly when its counts
   differ, or the journal holds no page, or the page it holds did not change.  Otherwise recovery
   takes the transaction for an unpublished one and puts the old page under the new manifest.
   */
  lemma PublishedRecoversIff(tx: Tx, d: Disk)
    requires WellFormed(tx) && FullPages(d.pages, tx.pages) && AllNew(tx, d) && d.journal == Some(TxJournal(tx))
    ensures RecoversWhole(tx, d) <==> Distinguished(tx)
  {
    if Distinguished(tx) {
      if tx.base == tx.target {
        forall s | s in tx.oldPages && s.page < tx.base / PAGE_TOKENS ensures d.pages[s] == tx.oldPages[s] {
          assert s in tx.newPages && Covered(s, tx.target);
        }
        EqualCountsRestore(tx, d);
      }
    } else {
      var s :| s in tx.oldPages && s.page == tx.base / PAGE_TOKENS && tx.newPages[s] != tx.oldPages[s];
      TailRestored(tx, d, s);
      assert Covered(s, tx.target);
    }
  }

  /** Unlinking the journal is safe exactly when whatever manifest may survive has its side durable. */
  lemma DiscardSafeIff(tx: Tx, v: Volume)
    requires Safe(tx, v)
    ensures Safe(tx, Unlinked(v)) <==> Settled(tx, v)
    ensures tx.base < tx.target ==> (Settled(tx, v) <==> tx.oldManifest !in v.manifests || OldDurable(tx, v))
  {
  }

  /** So it is not while the manifest rename is uncovered: the old manifest may survive without a journal. */
  lemma UnsyncedManifestForbidsDiscard(tx: Tx, v: Volume)
    requires Safe(tx, v) && tx.base < tx.target
    requires v.manifests == {tx.oldManifest, tx.newManifest}
    ensures !Safe(tx, Unlinked(v))
    ensures exists d :: Survivor(Unlinked(v), d) && !RecoversWhole(tx, d)
  {
    assert tx.newManifest in v.manifests && tx.oldManifest in v.manifests;
    DiscardSafeIff(tx, v);
    var d := Unlinked(v).seen.(manifest := tx.oldManifest, journal := None);
    assert Survivor(Unlinked(v), d) && !RecoversWhole(tx, d);
  }

  // ---------------------------------------------------- effects of one call

  function Put(v: Volume, s: Slot, data: nat): Volume {
    v.(seen := v.seen.(pages := v.seen.pages[s := data]), dirtyPages := v.dirtyPages + {s})
  }

  function PutHeader(v: Volume, h: Header): Volume {
    v.(seen := v.seen.(header := h), dirtyHeader := true)
  }

  function Synced(v: Volume): Volume { v.(dirtyHeader := false, dirtyPages := {}) }

  function Unlinked(v: Volume): Volume {
    v.(seen := v.seen.(journal := None), journals := v.journals + {None})
  }

  function JournalRenamed(v: Volume, t: Temp<Journal>): Volume {
    v.(seen := v.seen.(journal := Some(t.content)), journals := v.journals + {Some(t.content)},
       tornJournal := v.tornJournal || !t.synced, journalTemp := None)
  }

  function ManifestRenamed(v: Volume, t: Temp<Manifest>): Volume {
    v.(seen := v.seen.(manifest := t.content), manifests := v.manifests + {t.content},
       tornManifest := v.tornManifest || !t.synced, manifestTemp := None)
  }

  function DirectorySynced(v: Volume): Volume {
    v.(journals := {v.seen.journal}, manifests := {v.seen.manifest})
  }

  /** A page write that failed may have stored nothing or a torn page. */
  ghost predicate PageWritten(v: Volume, v': Volume, s: Slot, data: nat, ok: bool) {
    (ok && v' == Put(v, s, data)) || (!ok && (v' == v || (s in v'.seen.pages && v' == Put(v, s, v'.seen.pages[s]))))
  }

  ghost predicate HeaderWritten(v: Volume, v': Volume, h: Header, ok: bool) {
    (ok && v' == PutHeader(v, h)) || (!ok && (v' == v || v' == PutHeader(v, v'.seen.header)))
  }

  // ------------------------------------------------- stages of the protocol

  /** Nothing in flight: the old side is durable and no journal is to be seen. */
  ghost predicate Idle(tx: Tx, v: Volume) {
    && Safe(tx, v)
    && v.seen.journal == None
    && v.manifests == {tx.oldManifest}
  }

  /** The journal is durable and the manifest is still the old one. */
  ghost predicate Opened(tx: Tx, v: Volume) {
    && Safe(tx, v)
    && Journalled(tx, v)
    && v.manifests == {tx.oldManifest}
  }

  /** The journal is durable and recovery would write it back: what it covers may be torn. */
  ghost predicate Held(tx: Tx, v: Volume) {
    && Safe(tx, v)
    && Journalled(tx, v)
    && (tx.base < tx.target ==> v.manifests == {tx.oldManifest})
  }

  /** Whatever manifest may survive has its side durable, so the journal is not needed any more. */
  ghost predicate Settled(tx: Tx, v: Volume) {
    && Safe(tx, v)
    && (tx.oldManifest in v.manifests ==> OldDurable(tx, v))
    && (tx.newManifest in v.manifests ==> NewDurable(tx, v))
  }

  // ------------------------------------------- recovery without a power loss

  /** Recovery takes the branch that writes the journal back. */
  predicate RollsBack(tx: Tx, v: Volume) {
    v.seen.manifest.committed == tx.base
  }

  /** The volume after the first step of a recovery that finds this transaction's journal. */
  ghost function FirstStep(tx: Tx, v: Volume): Volume
    requires WellFormed(tx)
  {
    var j := TxJournal(tx);
    if !RollsBack(tx, v) then Unlinked(v)
    else if j.records != [] then Put(v, RecordSlot(0, tx.base / PAGE_TOKENS), j.records[0])
    else PutHeader(v, j.oldHeader)
  }

  /** What recovery in a running system needs: the entries it acts on are durable. */
  ghost predicate Recoverable(tx: Tx, v: Volume)
    requires WellFormed(tx)
  {
    v.seen.journal == Some(TxJournal(tx)) ==>
      if RollsBack(tx, v) then Journalled(tx, v) && (tx.base < tx.target ==> v.manifests == {tx.oldManifest})
      else v.manifests == {tx.newManifest}
  }

  /** It is exactly that: otherwise already the first step exposes some crash. */
  lemma RecoverableIff(tx: Tx, v: Volume)
    requires Safe(tx, v) && v.seen.journal == Some(TxJournal(tx))
    ensures Recoverable(tx, v) <==> Safe(tx, FirstStep(tx, v))
  {
    var w := FirstStep(tx, v);
    if RollsBack(tx, v) {
      FirstWriteSafeIff(tx, v);
    } else {
      DiscardSafeIff(tx, v);
      assert v.seen.manifest == tx.newManifest && tx.base < tx.target;
      assert tx.oldManifest !in v.manifests <==> v.manifests == {tx.newManifest};
    }
  }

  /** A write of the rollback is safe exactly when every surviving view would repeat it. */
  lemma FirstWriteSafeIff(tx: Tx, v: Volume)
    requires Safe(tx, v) && RollsBack(tx, v)
    ensures Safe(tx, FirstStep(tx, v)) <==> Held(tx, v)
  {
    var w, page := FirstStep(tx, v), tx.base / PAGE_TOKENS;
    var s := RecordSlot(0, page);
    if TxJournal(tx).records != [] {
      TailPageInPlan(tx, 0);
      assert s in w.dirtyPages && Covered(s, tx.base) && Covered(s, tx.target) && s in tx.oldPages && s in tx.newPages;
    } else {
      assert w.dirtyHeader;
    }
    assert !OldDurable(tx, w) && !NewDurable(tx, w);
    assert PrefixDurable(tx, w);
    if tx.newManifest !in v.manifests { assert v.manifests == {tx.oldManifest}; }
  }

  /** The rollback is about to start although some surviving view would not repeat it. */
  ghost predicate Unheld(tx: Tx, v: Volume) {
    Safe(tx, v) && RollsBack(tx, v) && !Held(tx, v)
  }

  /** The directory shows and may show the same entries. */
  predicate SameDirectory(v: Volume, v': Volume) {
    && v'.seen.journal == v.seen.journal && v'.seen.manifest == v.seen.manifest
    && v'.journals == v.journals && v'.manifests == v.manifests
  }

  /** First failing input: the journal's rename is visible and its directory sync has failed. */
  lemma UncoveredJournal(tx: Tx, v: Volume)
    requires Idle(tx, v)
    ensures var w := JournalRenamed(v, Temp(TxJournal(tx), true));
            Safe(tx, w) && !Recoverable(tx, w) && !Safe(tx, FirstStep(tx, w))
  {
    var w := JournalRenamed(v, Temp(TxJournal(tx), true));
    assert v.seen.journal in w.journals && v.seen.journal != Some(TxJournal(tx));
    assert Safe(tx, w) by { assert OldDurable(tx, v); }
    assert !Journalled(tx, w);
    RecoverableIff(tx, w);
  }

  /** Second failing input: the manifest's rename is visible and its directory sync has failed. */
  lemma UncoveredManifest(tx: Tx, v: Volume)
    requires Opened(tx, v) && NewDurable(tx, v) && tx.base < tx.target
    ensures var w := ManifestRenamed(v, Temp(tx.newManifest, true));
            Safe(tx, w) && !Recoverable(tx, w) && !Safe(tx, FirstStep(tx, w))
  {
    var w := ManifestRenamed(v, Temp(tx.newManifest, true));
    assert Journalled(tx, w);
    assert tx.oldManifest in w.manifests;
    RecoverableIff(tx, w);
  }

  /** The new side's page records up to record `k` of page `page` are in place. */
  ghost predicate Flushed(tx: Tx, pages: map<Slot, nat>, page: nat, k: nat) {
    forall s :: s in tx.newPages && tx.base / PAGE_TOKENS <= s.page
                && (s.page < page || (s.page == page && RecordIndex(s) < k)) ==>
      s in pages && pages[s] == tx.newPages[s]
  }

  function RecordIndex(s: Slot): nat {
    if s.family.Target? then s.layer else TARGET_LAYERS + s.layer
  }

  /** Only a queue without a failed write vouches for what was submitted. */
  predicate AllSucceeded(results: seq<bool>) {
    forall i :: 0 <= i < |results| ==> results[i]
  }

  /**
   A finished, rolled back or recovered transaction leaves the state from which the next one
   begins, also when the removal of its journal is not durable yet.
   */
  lemma SettledStartsNext(tx: Tx, next: Tx, v: Volume)
    requires Settled(tx, v) && v.seen.journal == None && v.manifests == {v.seen.manifest} && Distinguished(tx)
    requires WellFormed(next) && next.pages == tx.pages && next.generation == tx.generation
    requires next.oldManifest == v.seen.manifest && next.oldPages == v.seen.pages
    ensures Idle(next, v)
  {
    forall j | j in v.journals ensures j == None || j == Some(TxJournal(next)) || Foreign(next, j.value) {
      if j == Some(TxJournal(tx)) && tx.base == next.base { SameJournal(tx, next, v); }
    }
    forall s | s in next.oldPages && s.page < next.base / PAGE_TOKENS ensures s !in v.dirtyPages {
      assert Covered(s, next.base);
    }
  }

  /** Two transactions that start from one durable state have one journal. */
  lemma SameJournal(tx: Tx, next: Tx, v: Volume)
    requires Settled(tx, v) && v.manifests == {v.seen.manifest} && Distinguished(tx)
    requires WellFormed(next) && next.generation == tx.generation && next.base == tx.base
    requires next.oldManifest == v.seen.manifest && next.oldPages == v.seen.pages && next.pages == tx.pages
    ensures TxJournal(next) == TxJournal(tx)
  {
    var page, a, b := tx.base / PAGE_TOKENS, TxJournal(tx).records, TxJournal(next).records;
    forall i | 0 <= i < |a| ensures a[i] == b[i] {
      TailPageInPlan(tx, i);
      var s := RecordSlot(i, page);
      assert s in tx.oldPages && Covered(s, tx.base) && Covered(s, tx.target);
    }
    assert a == b;
  }

  lemma TailWriteKeepsHeld(tx: Tx, v: Volume, s: Slot, data: nat)
    requires Held(tx, v) && InPlan(s, tx.pages) && s.page >= tx.base / PAGE_TOKENS
    ensures Held(tx, Put(v, s, data)) && (Opened(tx, v) ==> Opened(tx, Put(v, s, data)))
  {
  }

  /** A journal record of the base page is what the durable old page holds. */
  lemma TailRecord(tx: Tx, v: Volume, i: nat, s: Slot)
    requires Safe(tx, v) && OldDurable(tx, v) && tx.base % PAGE_TOKENS != 0 && i < RECORDS && s == RecordSlot(i, tx.base / PAGE_TOKENS)
    ensures |TxJournal(tx).records| == RECORDS && s in v.seen.pages && v.seen.pages[s] == TxJournal(tx).records[i]
  {
    TailPageInPlan(tx, i);
    assert Covered(s, tx.base);
  }

  lemma LastVouches(before: seq<bool>, after: seq<bool>)
    requires |after| > 0 && after[..|after| - 1] == before
    ensures AllSucceeded(after) <==> AllSucceeded(before) && after[|after| - 1]
  {
    forall i | 0 <= i < |before| ensures before[i] == after[i] { assert after[..|after| - 1][i] == after[i]; }
  }

  /** The disk `start` with the first `n` journal records written back. */
  ghost predicate RestoredUpTo(tx: Tx, start: Disk, d: Disk, n: nat)
    requires WellFormed(tx)
  {
    n <= |TxJournal(tx).records| && d == start.(pages := Restored(start.pages, TxJournal(tx).records, tx.base / PAGE_TOKENS, n))
  }

  /** Writing back record `i` moves the restored pages on by one record, inside the invariant where the journal is durable. */
  lemma RestoreStep(tx: Tx, v: Volume, v': Volume, s: Slot, i: nat, ok: bool, start: Disk)
    requires WellFormed(tx) && tx.base % PAGE_TOKENS != 0 && i < RECORDS && s == RecordSlot(i, tx.base / PAGE_TOKENS)
    requires PageWritten(v, v', s, TxJournal(tx).records[i], ok) && RestoredUpTo(tx, start, v.seen, i)
    ensures ok ==> RestoredUpTo(tx, start, v'.seen, i + 1)
    ensures Held(tx, v) ==> Held(tx, v')
  {
    TailPageInPlan(tx, i);
    if Held(tx, v) && v' != v { TailWriteKeepsHeld(tx, v, s, v'.seen.pages[s]); }
  }

  lemma SyncKeepsHeld(tx: Tx, v: Volume)
    requires Held(tx, v)
    ensures Held(tx, Synced(v))
  {
  }

  lemma IdleIsDurable(tx: Tx, v: Volume)
    requires Idle(tx, v)
    ensures OldDurable(tx, v)
  {
    assert None in v.journals;
  }

  /** A temporary file beside the journal matters to nobody. */
  lemma TempKeepsIdle(tx: Tx, v: Volume, t: Option<Temp<Journal>>)
    requires Idle(tx, v)
    ensures Idle(tx, v.(journalTemp := t))
  {
  }

  /** Before the directory sync either entry may survive, afterwards only the journal. */
  lemma JournalPlaced(tx: Tx, v: Volume)
    requires Idle(tx, v)
    ensures var w := JournalRenamed(v, Temp(TxJournal(tx), true));
            Safe(tx, w) && OldDurable(tx, w) && Opened(tx, DirectorySynced(w)) && OldDurable(tx, DirectorySynced(w))
  {
    IdleIsDurable(tx, v);
  }

  lemma ManifestTempKeeps(tx: Tx, v: Volume, t: Option<Temp<Manifest>>)
    requires Opened(tx, v) && NewDurable(tx, v)
    ensures Opened(tx, v.(manifestTemp := t)) && NewDurable(tx, v.(manifestTemp := t))
  {
  }

  /** Both manifests may survive until the directory sync; the journal and the new side are durable throughout. */
  lemma ManifestPlaced(tx: Tx, v: Volume)
    requires Opened(tx, v) && NewDurable(tx, v)
    ensures var w := ManifestRenamed(v, Temp(tx.newManifest, true));
            && Safe(tx, w) && Journalled(tx, w) && NewDurable(tx, w)
            && Safe(tx, DirectorySynced(w)) && Journalled(tx, DirectorySynced(w)) && NewDurable(tx, DirectorySynced(w))
  {
  }

  lemma HeaderKeepsHeld(tx: Tx, v: Volume, v': Volume, h: Header, ok: bool)
    requires Held(tx, v) && HeaderWritten(v, v', h, ok)
    ensures Held(tx, v') && (Opened(tx, v) ==> Opened(tx, v'))
  {
  }

  /** With all records and the old header back, the disk is the recovered one but for its journal. */
  lemma RestoredIsRecovered(tx: Tx, d: Disk, restored: Disk)
    requires WellFormed(tx) && d.journal == Some(TxJournal(tx)) && d.manifest.committed == tx.base
    requires RestoredUpTo(tx, d, restored, |TxJournal(tx).records|)
    ensures restored.(header := OldHeader(tx)) == RecoverDisk(d).1.(journal := Some(TxJournal(tx)))
  {
  }

  /** And once synced, the side of whatever manifest may survive is durable. */
  lemma RestoredIsDurable(tx: Tx, v: Volume, restored: Volume)
    requires Held(tx, v) && Held(tx, restored) && RestoredUpTo(tx, v.seen, restored.seen, |TxJournal(tx).records|)
    ensures var w := Synced(PutHeader(restored, OldHeader(tx)));
            Held(tx, w) && OldDurable(tx, w) && (Distinguished(tx) ==> Settled(tx, w))
  {
    var w := Synced(PutHeader(restored, OldHeader(tx)));
    RestoredIsOld(tx, v, restored.seen, w);
    HeldSettles(tx, restored, w);
  }

  lemma RestoredIsOld(tx: Tx, v: Volume, d: Disk, w: Volume)
    requires Held(tx, v) && RestoredUpTo(tx, v.seen, d, |TxJournal(tx).records|)
    requires !w.dirtyHeader && w.dirtyPages == {} && w.seen.header == OldHeader(tx) && w.seen.pages == d.pages
    ensures OldDurable(tx, w)
  {
    var start := v.seen.(manifest := tx.oldManifest, journal := Some(TxJournal(tx)));
    RollbackRestoresOld(tx, start);
    assert w.seen.pages == RecoverDisk(start).1.pages;
  }

  lemma HeldSettles(tx: Tx, v: Volume, w: Volume)
    requires Held(tx, v) && w == Synced(PutHeader(v, OldHeader(tx))) && OldDurable(tx, w)
    ensures Held(tx, w) && (Distinguished(tx) ==> Settled(tx, w))
  {
    HeaderKeepsHeld(tx, v, PutHeader(v, OldHeader(tx)), OldHeader(tx), true);
    SyncKeepsHeld(tx, PutHeader(v, OldHeader(tx)));
    if Distinguished(tx) && tx.base == tx.target { OldIsNew(tx, w); }
  }

  /** A rolled back transaction without its journal leaves nothing in flight. */
  lemma RolledBack(tx: Tx, v: Volume)
    requires Opened(tx, v) && OldDurable(tx, v)
    ensures Settled(tx, v) && Idle(tx, DirectorySynced(Unlinked(v)))
  {
  }

  lemma OldIsNew(tx: Tx, w: Volume)
    requires WellFormed(tx) && Distinguished(tx) && tx.base == tx.target && OldDurable(tx, w)
    ensures NewDurable(tx, w)
  {
    forall s | s in tx.newPages && Covered(s, tx.target) ensures tx.newPages[s] == tx.oldPages[s] {
      assert s.page <= tx.base / PAGE_TOKENS;
    }
  }

  lemma SubmitKeepsFlushed(tx: Tx, v: Volume, v': Volume, s: Slot, before: seq<bool>, after: seq<bool>)
    requires Opened(tx, v) && s in tx.newPages && s.page >= tx.base / PAGE_TOKENS
    requires |after| > 0 && after[..|after| - 1] == before
    requires PageWritten(v, v', s, tx.newPages[s], after[|after| - 1])
    requires AllSucceeded(before) ==> Flushed(tx, v.seen.pages, s.page, RecordIndex(s))
    ensures Opened(tx, v')
    ensures AllSucceeded(after) ==> Flushed(tx, v'.seen.pages, s.page, RecordIndex(s) + 1)
  {
    if v' != v { TailWriteKeepsHeld(tx, v, s, v'.seen.pages[s]); }
    if AllSucceeded(after) {
      assert forall i :: 0 <= i < |before| ==> before[i] == after[i];
      forall s' | s' in tx.newPages && s'.page == s.page && RecordIndex(s') == RecordIndex(s) ensures s' == s {}
    }
  }

  lemma FlushedPage(tx: Tx, pages: map<Slot, nat>, page: nat)
    requires WellFormed(tx) && Flushed(tx, pages, page, RECORDS)
    ensures Flushed(tx, pages, page + 1, 0)
  {
  }

  lemma FlushedEverything(tx: Tx, v: Volume, page: nat)
    requires Opened(tx, v) && Flushed(tx, v.seen.pages, page, 0)
    requires tx.target <= page * PAGE_TOKENS
    ensures forall s :: s in tx.newPages && Covered(s, tx.target) ==>
              s in v.seen.pages && v.seen.pages[s] == tx.newPages[s]
  {
  }

  /** The tier file and its in-memory watermark. */
  class Tier {
    var vol: Volume
    var generation: nat
    var committed: nat
    var completions: seq<bool>  // results of submitted writes not yet waited for
    const maxContext: nat
    const pages: nat := (maxContext + PAGE_TOKENS - 1) / PAGE_TOKENS
    /** Some system call has failed. */
    ghost var faulted: bool
    /** At some moment so far a power loss would have left a disk that recovery does not make whole. */
    ghost var exposed: bool

    constructor (v: Volume, maxContext: nat, generation: nat, committed: nat)
      ensures vol == v && this.maxContext == maxContext
      ensures this.generation == generation && this.committed == committed && completions == [] && !faulted && !exposed
    {
      vol := v;
      this.maxContext := maxContext;
      this.generation := generation;
      this.committed := committed;
      completions := [];
      faulted, exposed := false, false;
    }

    // ----------------------------------------------------- system calls
    // Each call notes whether the volume it leaves is one that every crash is recovered from.

    method PwritePage(s: Slot, data: nat, ghost tx: Tx) returns (ok: bool)
      modifies this`vol, this`faulted, this`exposed
      ensures PageWritten(old(vol), vol, s, data, ok)
      ensures faulted == (old(faulted) || !ok) && exposed == (old(exposed) || !Safe(tx, vol))
    {
      ok := *;
      faulted := faulted || !ok;
      var reached: bool := *;
      if ok {
        vol := Put(vol, s, data);
      } else if reached {
        var torn: nat := *;
        vol := Put(vol, s, torn);
      }
      exposed := exposed || !Safe(tx, vol);
    }

    method PwriteHeader(h: Header, ghost tx: Tx) returns (ok: bool)
      modifies this`vol, this`faulted, this`exposed
      ensures HeaderWritten(old(vol), vol, h, ok)
      ensures faulted == (old(faulted) || !ok) && exposed == (old(exposed) || !Safe(tx, vol))
    {
      ok := *;
      faulted := faulted || !ok;
      var reached: bool := *;
      if ok {
        vol := PutHeader(vol, h);
      } else if reached {
        var torn: Header := *;
        vol := PutHeader(vol, torn);
      }
      exposed := exposed || !Safe(tx, vol);
    }

    method Fdatasync(ghost tx: Tx) returns (ok: bool)
      modifies this`vol, this`faulted, this`exposed
      ensures vol == if ok then Synced(old(vol)) else old(vol)
      ensures faulted == (old(faulted) || !ok) && exposed == (old(exposed) || !Safe(tx, vol))
    {
      ok := *;
      faulted := faulted || !ok;
      if ok { vol := Synced(vol); }
      exposed := exposed || !Safe(tx, vol);
    }

    method ReadPage(s: Slot) returns (ok: bool, data: nat)
      requires s in vol.seen.pages
      modifies this`faulted
      ensures ok ==> data == vol.seen.pages[s]
      ensures faulted == (old(faulted) || !ok)
    {
      ok := *;
      faulted := faulted || !ok;
      data := vol.seen.pages[s];
    }

    /** Creates `<journal>.tmp` and writes it; syncing it is a separate call. */
    method WriteJournalTemp(j: Journal, ghost tx: Tx) returns (ok: bool)
      modifies this`vol, this`faulted, this`exposed
      ensures ok ==> vol == old(vol).(journalTemp := Some(Temp(j, false)))
      ensures vol == old(vol).(journalTemp := vol.journalTemp)
      ensures faulted == (old(faulted) || !ok) && exposed == (old(exposed) || !Safe(tx, vol))
    {
      ok := *;
      faulted := faulted || !ok;
      var torn: Journal := *;
      vol := vol.(journalTemp := Some(Temp(if ok then j else torn, false)));
      exposed := exposed || !Safe(tx, vol);
    }

    method SyncJournalTemp(ghost tx: Tx) returns (ok: bool)
      requires vol.journalTemp.Some?
      modifies this`vol, this`faulted, this`exposed
      ensures vol == if ok then old(vol).(journalTemp := Some(old(vol).journalTemp.value.(synced := true))) else old(vol)
      ensures faulted == (old(faulted) || !ok) && exposed == (old(exposed) || !Safe(tx, vol))
    {
      ok := *;
      faulted := faulted || !ok;
      if ok { vol := vol.(journalTemp := Some(vol.journalTemp.value.(synced := true))); }
      exposed := exposed || !Safe(tx, vol);
    }

    method RenameJournal(ghost tx: Tx) returns (ok: bool)
      requires vol.journalTemp.Some?
      modifies this`vol, this`faulted, this`exposed
      ensures vol == if ok then JournalRenamed(old(vol), old(vol).journalTemp.value) else old(vol)
      ensures faulted == (old(faulted) || !ok) && exposed == (old(exposed) || !Safe(tx, vol))
    {
      ok := *;
      faulted := faulted || !ok;
      if ok { vol := JournalRenamed(vol, vol.journalTemp.value); }
      exposed := exposed || !Safe(tx, vol);
    }

    method UnlinkJournal(ghost tx: Tx) returns (ok: bool)
      modifies this`vol, this`faulted, this`exposed
      ensures vol == if ok then Unlinked(old(vol)) else old(vol)
      ensures faulted == (old(faulted) || !ok) && exposed == (old(exposed) || !Safe(tx, vol))
    {
      ok := *;
      faulted := faulted || !ok;
      if ok { vol := Unlinked(vol); }
      exposed := exposed || !Safe(tx, vol);
    }

    /** Journal and manifest share one directory, so one sync settles both entries. */
    method SyncDirectory(ghost tx: Tx) returns (ok: bool)
      modifies this`vol, this`faulted, this`exposed
      ensures vol == if ok then DirectorySynced(old(vol)) else old(vol)
      ensures faulted == (old(faulted) || !ok) && exposed == (old(exposed) || !Safe(tx, vol))
    {
      ok := *;
      faulted := faulted || !ok;
      if ok { vol := DirectorySynced(vol); }
      exposed := exposed || !Safe(tx, vol);
    }

    method WriteManifestTemp(m: Manifest, ghost tx: Tx) returns (ok: bool)
      modifies this`vol, this`faulted, this`exposed
      ensures ok ==> vol == old(vol).(manifestTemp := Some(Temp(m, false)))
      ensures vol == old(vol).(manifestTemp := vol.manifestTemp)
      ensures faulted == (old(faulted) || !ok) && exposed == (old(exposed) || !Safe(tx, vol))
    {
      ok := *;
      faulted := faulted || !ok;
      var torn: Manifest := *;
      vol := vol.(manifestTemp := Some(Temp(if ok then m else torn, false)));
      exposed := exposed || !Safe(tx, vol);
    }

    method SyncManifestTemp(ghost tx: Tx) returns (ok: bool)
      requires vol.manifestTemp.Some?
      modifies this`vol, this`faulted, this`exposed
      ensures vol == if ok then old(vol).(manifestTemp := Some(old(vol).manifestTemp.value.(synced := true))) else old(vol)
      ensures faulted == (old(faulted) || !ok) && exposed == (old(exposed) || !Safe(tx, vol))
    {
      ok := *;
      faulted := faulted || !ok;
      if ok { vol := vol.(manifestTemp := Some(vol.manifestTemp.value.(synced := true))); }
      exposed := exposed || !Safe(tx, vol);
    }

    method RenameManifest(ghost tx: Tx) returns (ok: bool)
      requires vol.manifestTemp.Some?
      modifies this`vol, this`faulted, this`exposed
      ensures vol == if ok then ManifestRenamed(old(vol), old(vol).manifestTemp.value) else old(vol)
      ensures faulted == (old(faulted) || !ok) && exposed == (old(exposed) || !Safe(tx, vol))
    {
      ok := *;
      faulted := faulted || !ok;
      if ok { vol := ManifestRenamed(vol, vol.manifestTemp.value); }
      exposed := exposed || !Safe(tx, vol);
    }

    // ------------------------------------------------------- operations

    /** The records of one family of the base page, read after those of the families before it. */
    method ReadFamily(base: nat, family: Family, before: seq<nat>, ghost tx: Tx) returns (ok: bool, records: seq<nat>)
      requires Safe(tx, vol) && OldDurable(tx, vol) && tx.base == base && base % PAGE_TOKENS != 0
      requires before == TxJournal(tx).records[..if family.Target? then 0 else TARGET_LAYERS]
      modifies this`faulted
      ensures ok ==> records == TxJournal(tx).records[..|before| + LayersOf(family)]
      ensures faulted == (old(faulted) || !ok)
    {
      ok, records := true, before;
      for layer := 0 to LayersOf(family)
        invariant ok && faulted == old(faulted) && records == TxJournal(tx).records[..|before| + layer]
      {
        var s := Slot(family, layer, base / PAGE_TOKENS);
        TailRecord(tx, vol, |before| + layer, s);
        var read, data := ReadPage(s);
        if !read { return false, []; }
        records := records + [data];
      }
    }

    /** The page records of a partial base page, target layers first. */
    method ReadTail(base: nat, ghost tx: Tx) returns (ok: bool, records: seq<nat>)
      requires Safe(tx, vol) && OldDurable(tx, vol) && tx.base == base
      modifies this`faulted
      ensures ok ==> records == TxJournal(tx).records
      ensures faulted == (old(faulted) || !ok)
    {
      ok, records := true, [];
      if base % PAGE_TOKENS != 0 {
        ok, records := ReadFamily(base, Target, [], tx);
        if !ok { return; }
        ok, records := ReadFamily(base, Dspark, records, tx);
        assert TxJournal(tx).records[..RECORDS] == TxJournal(tx).records;
      }
    }

    /** The journal is written beside its place, synced, moved there, and its directory entry synced. */
    method PlaceJournal(j: Journal, ghost tx: Tx) returns (ok: bool)
      requires Idle(tx, vol) && j == TxJournal(tx)
      modifies this`vol, this`faulted, this`exposed
      ensures Safe(tx, vol) && exposed == old(exposed) && faulted == (old(faulted) || !ok)
      ensures vol.manifests == {tx.oldManifest} && OldDurable(tx, vol)
      ensures ok ==> Opened(tx, vol)
    {
      IdleIsDurable(tx, vol);
      TempKeepsIdle(tx, vol, Some(Temp(j, true)));
      ok := WriteJournalTemp(j, tx);
      TempKeepsIdle(tx, old(vol), vol.journalTemp);
      if !ok { return; }
      ok := SyncJournalTemp(tx);
      if !ok { return; }
      ghost var before := vol;
      ok := RenameJournal(tx);
      JournalPlaced(tx, before);
      if ok { ok := SyncDirectory(tx); }
    }

    /** transaction_begin: journal the old header and, for a partial base page, its records. */
    method TransactionBegin(base: nat, ghost tx: Tx) returns (rc: Status)
      requires Idle(tx, vol)
      requires tx.pages == pages && tx.generation == generation && tx.base == committed <= maxContext
      modifies this`vol, this`faulted, this`exposed
      ensures Safe(tx, vol) && exposed == old(exposed) && vol.manifests == {tx.oldManifest} && OldDurable(tx, vol)
      ensures rc == Ok ==> Opened(tx, vol) && base == committed && completions == []
      ensures old(faulted) ==> faulted
      ensures rc != Ok ==> faulted || completions != [] || base != committed
    {
      if base == 0 || completions != [] || base != committed || base > maxContext {
        return InvalidArgument;
      }
      if vol.seen.journal.Some? {
        return IoError;
      }
      var header := vol.seen.header;
      if !header.valid || header.generation != generation || header.committed != base {
        return IoError;
      }
      var ok, records := ReadTail(base, tx);
      if !ok { return IoError; }
      var j := Journal(true, base, header, records);
      assert j == TxJournal(tx);
      ok := PlaceJournal(j, tx);
      return if ok then Ok else IoError;
    }

    /** The records of one family, written back from journal position `cursor` on. */
    method RestoreFamily(j: Journal, family: Family, cursor: nat, ghost tx: Tx, ghost start: Disk) returns (ok: bool)
      requires WellFormed(tx) && j == TxJournal(tx) && |j.records| == RECORDS
      requires cursor == if family.Target? then 0 else TARGET_LAYERS
      requires RestoredUpTo(tx, start, vol.seen, cursor)
      modifies this`vol, this`faulted, this`exposed
      ensures ok ==> RestoredUpTo(tx, start, vol.seen, cursor + LayersOf(family))
      ensures old(Held(tx, vol)) ==> Held(tx, vol) && exposed == old(exposed)
      ensures old(exposed) ==> exposed
      ensures ok && cursor == 0 && old(Unheld(tx, vol)) ==> exposed
      ensures faulted == (old(faulted) || !ok) && SameDirectory(old(vol), vol)
    {
      var page := j.base / PAGE_TOKENS;
      for layer := 0 to LayersOf(family)
        invariant faulted == old(faulted) && (layer == 0 ==> vol == old(vol)) && SameDirectory(old(vol), vol)
        invariant RestoredUpTo(tx, start, vol.seen, cursor + layer)
        invariant old(Held(tx, vol)) ==> Held(tx, vol) && exposed == old(exposed)
        invariant old(exposed) ==> exposed
        invariant layer > 0 && cursor == 0 && old(Unheld(tx, vol)) ==> exposed
      {
        var s := Slot(family, layer, page);
        ghost var before := vol;
        ok := PwritePage(s, j.records[cursor + layer], tx);
        RestoreStep(tx, before, vol, s, cursor + layer, ok, start);
        if layer == 0 && cursor == 0 && Unheld(tx, before) { FirstWriteSafeIff(tx, before); }
        if !ok { return; }
      }
      return true;
    }

    /** The journalled page records, made durable before the watermark goes back. */
    method RestorePages(j: Journal, ghost tx: Tx) returns (ok: bool)
      requires WellFormed(tx) && j == TxJournal(tx) && RollsBack(tx, vol)
      modifies this`vol, this`faulted, this`exposed
      ensures faulted == (old(faulted) || !ok)
      ensures ok ==> RestoredUpTo(tx, old(vol).seen, vol.seen, |j.records|)
      ensures j.records == [] ==> vol == old(vol) && exposed == old(exposed)
      ensures old(Held(tx, vol)) ==> Held(tx, vol) && exposed == old(exposed)
      ensures old(exposed) || (ok && j.records != [] && old(Unheld(tx, vol))) ==> exposed
      ensures SameDirectory(old(vol), vol)
    {
      ok := true;
      if |j.records| != 0 {
        ok := RestoreFamily(j, Target, 0, tx, old(vol).seen);
        if ok { ok := RestoreFamily(j, Dspark, TARGET_LAYERS, tx, old(vol).seen); }
        if !ok { return; }
        if Held(tx, vol) { SyncKeepsHeld(tx, vol); }
        ok := Fdatasync(tx);
      }
    }

    /** restore_transaction_fd: page records first, then a sync, then the old watermark. */
    method RestoreTransaction(j: Journal, ghost tx: Tx) returns (rc: Status)
      requires WellFormed(tx) && j == TxJournal(tx) && vol.seen.journal == Some(j) && RollsBack(tx, vol)
      modifies this`vol, this`faulted, this`exposed
      ensures faulted == (old(faulted) || rc != Ok)
      ensures rc == Ok ==> vol.seen == RecoverDisk(old(vol).seen).1.(journal := Some(j))
      ensures SameDirectory(old(vol), vol)
      ensures old(Held(tx, vol)) ==> Held(tx, vol) && exposed == old(exposed)
      ensures old(Held(tx, vol)) && rc == Ok ==> OldDurable(tx, vol) && (Distinguished(tx) ==> Settled(tx, vol))
      ensures old(exposed) || (rc == Ok && old(Unheld(tx, vol))) ==> exposed
    {
      if Unheld(tx, vol) { FirstWriteSafeIff(tx, vol); }
      var ok := RestorePages(j, tx);
      if !ok { return IoError; }
      ghost var before := vol;
      ok := PwriteHeader(j.oldHeader, tx);
      if old(Held(tx, vol)) { HeaderKeepsHeld(tx, before, vol, j.oldHeader, ok); }
      if !ok { return IoError; }
      ok := Fdatasync(tx);
      if !ok { return IoError; }
      RestoredIsRecovered(tx, old(vol).seen, before.seen);
      if old(Held(tx, vol)) { RestoredIsDurable(tx, old(vol), before); }
      return Ok;
    }

    /** discard_transaction_path: unlink the journal, then sync the directory. */
    method TransactionDiscard(ghost tx: Tx) returns (rc: Status)
      modifies this`vol, this`faulted, this`exposed
      ensures faulted == (old(faulted) || rc != Ok)
      ensures rc == Ok ==> vol == DirectorySynced(Unlinked(old(vol)))
      ensures rc != Ok ==> vol == old(vol) || vol == Unlinked(old(vol))
      ensures old(Settled(tx, vol)) ==> Settled(tx, vol) && exposed == old(exposed)
      ensures old(exposed) || (rc == Ok && !Safe(tx, Unlinked(old(vol)))) ==> exposed
    {
      if Settled(tx, vol) { DiscardSafeIff(tx, vol); }
      var ok := UnlinkJournal(tx);
      if ok { ok := SyncDirectory(tx); }
      return if ok then Ok else IoError;
    }

    /** transaction_rollback, in the running process. */
    method TransactionRollback(ghost tx: Tx) returns (rc: Status)
      requires Opened(tx, vol)
      modifies this
      ensures Safe(tx, vol) && exposed == old(exposed) && completions == old(completions)
      ensures rc == Ok ==> Idle(tx, vol) && vol.journals == {None} && committed == tx.base && generation == tx.generation
      ensures rc == Ok ==> completions == [] && AllOld(tx, vol.seen)
      ensures rc != Ok ==> Opened(tx, vol) || Settled(tx, vol)
      ensures vol.manifests == {tx.oldManifest}
      ensures old(faulted) ==> faulted
      ensures rc != Ok ==> faulted || completions != [] || old(generation) != tx.generation
    {
      var readable: bool := *;
      faulted := faulted || !readable;
      if !readable { return IoError; }
      var j := vol.seen.journal.value;
      if completions != [] || generation != j.oldHeader.generation {
        return InvalidArgument;
      }
      rc := RestoreTransaction(j, tx);
      if rc == Ok {
        generation, committed := j.oldHeader.generation, j.oldHeader.committed;
        RolledBack(tx, vol);
        rc := TransactionDiscard(tx);
      }
    }

    /** kv_tier_submit: the write runs now and its result is queued for Drain, unless the ring refuses it. */
    method SubmitWrite(s: Slot, data: nat, ghost tx: Tx) returns (rc: Status)
      requires Opened(tx, vol) && s.page >= tx.base / PAGE_TOKENS && tx.pages == pages
      modifies this`vol, this`completions, this`faulted, this`exposed
      ensures Opened(tx, vol) && exposed == old(exposed)
      ensures rc == InvalidArgument <==> !InPlan(s, pages)
      ensures rc == Budget <==> InPlan(s, pages) && |old(completions)| >= QUEUE_DEPTH
      ensures rc != Ok ==> completions == old(completions)
      ensures rc == InvalidArgument || rc == Budget ==> vol == old(vol) && faulted == old(faulted)
      ensures rc == IoError ==> faulted && PageWritten(old(vol), vol, s, data, false)
      ensures rc == Ok ==> |completions| > 0 && completions[..|completions| - 1] == old(completions)
                           && PageWritten(old(vol), vol, s, data, completions[|completions| - 1])
      ensures rc == Ok ==> faulted == (old(faulted) || !completions[|completions| - 1])
    {
      if !InPlan(s, pages) { return InvalidArgument; }
      if |completions| >= QUEUE_DEPTH { return Budget; }
      var ok := PwritePage(s, data, tx);
      if vol != old(vol) { TailWriteKeepsHeld(tx, old(vol), s, vol.seen.pages[s]); }
      var entered: bool := *;
      if !ok && !entered { return IoError; }
      completions := completions + [ok];
      return Ok;
    }

    /** drain_kv_writes: wait for everything submitted and report whether all of it succeeded. */
    method Drain() returns (rc: Status)
      modifies this`completions, this`faulted
      ensures rc == Ok ==> AllSucceeded(old(completions)) && completions == [] && faulted == old(faulted)
      ensures rc != Ok ==> !AllSucceeded(old(completions)) || (faulted && completions == old(completions))
      ensures old(faulted) ==> faulted
      ensures !AllSucceeded(old(completions)) ==> rc != Ok
      ensures completions == [] || completions == old(completions)
    {
      rc := Ok;
      if completions == [] { return; }
      var waited: bool := *;
      if !waited {
        faulted := true;
        return IoError;
      }
      var ready := completions;
      for i := 0 to |ready|
        invariant rc == Ok <==> AllSucceeded(ready[..i])
      {
        if !ready[i] { rc := IoError; }
        assert ready[..i + 1] == ready[..i] + [ready[i]];
        assert (ready[..i] + [ready[i]])[i] == ready[i];
      }
      assert ready[..|ready|] == ready;
      completions := [];
    }

    /** A queued failure has been noticed as a fault. */
    ghost predicate Vouched()
      reads this
    {
      !faulted ==> AllSucceeded(completions)
    }

    /** One page record, after draining a queue that is full. */
    method FlushRecord(contents: map<Slot, nat>, s: Slot, ghost tx: Tx) returns (rc: Status)
      requires Opened(tx, vol) && tx.pages == pages && contents == tx.newPages && InPlan(s, pages)
      requires tx.base / PAGE_TOKENS <= s.page && Vouched()
      requires AllSucceeded(completions) ==> Flushed(tx, vol.seen.pages, s.page, RecordIndex(s))
      modifies this`vol, this`completions, this`faulted, this`exposed
      ensures Opened(tx, vol) && exposed == old(exposed) && Vouched() && (old(faulted) || rc != Ok ==> faulted)
      ensures rc == Ok && AllSucceeded(completions) ==> Flushed(tx, vol.seen.pages, s.page, RecordIndex(s) + 1)
    {
      if |completions| >= QUEUE_DEPTH {
        rc := Drain();
        if rc != Ok { return; }
      }
      ghost var before, queued := vol, completions;
      rc := SubmitWrite(s, contents[s], tx);
      if rc != Ok { return; }
      SubmitKeepsFlushed(tx, before, vol, s, queued, completions);
      LastVouches(queued, completions);
    }

    /** All records of one family of one page, draining whenever the queue is full. */
    method FlushFamily(contents: map<Slot, nat>, page: nat, family: Family, ghost tx: Tx) returns (rc: Status)
      requires Opened(tx, vol) && tx.pages == pages && contents == tx.newPages
      requires tx.base / PAGE_TOKENS <= page < pages
      requires AllSucceeded(completions) ==> Flushed(tx, vol.seen.pages, page, if family.Target? then 0 else TARGET_LAYERS)
      requires Vouched()
      modifies this`vol, this`completions, this`faulted, this`exposed
      ensures Opened(tx, vol) && exposed == old(exposed) && Vouched() && (old(faulted) || rc != Ok ==> faulted)
      ensures rc == Ok && AllSucceeded(completions) ==>
                Flushed(tx, vol.seen.pages, page, if family.Target? then TARGET_LAYERS else RECORDS)
    {
      ghost var first := if family.Target? then 0 else TARGET_LAYERS;
      for layer := 0 to LayersOf(family)
        invariant Opened(tx, vol) && exposed == old(exposed) && Vouched() && (old(faulted) ==> faulted)
        invariant AllSucceeded(completions) ==> Flushed(tx, vol.seen.pages, page, first + layer)
      {
        rc := FlushRecord(contents, Slot(family, layer, page), tx);
        if rc != Ok { return; }
      }
      return Ok;
    }

    method FlushPage(contents: map<Slot, nat>, page: nat, ghost tx: Tx) returns (rc: Status)
      requires Opened(tx, vol) && tx.pages == pages && contents == tx.newPages
      requires tx.base / PAGE_TOKENS <= page < pages
      requires AllSucceeded(completions) ==> Flushed(tx, vol.seen.pages, page, 0)
      requires Vouched()
      modifies this`vol, this`completions, this`faulted, this`exposed
      ensures Opened(tx, vol) && exposed == old(exposed) && Vouched() && (old(faulted) || rc != Ok ==> faulted)
      ensures rc == Ok && AllSucceeded(completions) ==> Flushed(tx, vol.seen.pages, page + 1, 0)
    {
      rc := FlushFamily(contents, page, Target, tx);
      if rc == Ok { rc := FlushFamily(contents, page, Dspark, tx); }
      if rc == Ok && AllSucceeded(completions) { FlushedPage(tx, vol.seen.pages, page); }
    }

    /** persist_kv_pages: rewrite every page from the base page to the new end, then commit. */
    method PersistPages(contents: map<Slot, nat>, target: nat, ghost tx: Tx) returns (rc: Status)
      requires contents == tx.newPages
      requires Opened(tx, vol) && tx.pages == pages && tx.target == target && tx.generation == generation
      requires committed == tx.base && Vouched()
      modifies this
      ensures Opened(tx, vol) && exposed == old(exposed) && generation == old(generation)
      ensures rc == Ok ==> NewDurable(tx, vol) && committed == target && completions == []
      ensures rc != Ok ==> committed == old(committed)
      ensures old(faulted) || (rc != Ok && target <= maxContext) ==> faulted
      ensures !faulted ==> completions == []
    {
      var end := (target + PAGE_TOKENS - 1) / PAGE_TOKENS;
      rc := Ok;
      var page := committed / PAGE_TOKENS;
      while page < end && rc == Ok
        invariant tx.base / PAGE_TOKENS <= page && end <= pages
        invariant Opened(tx, vol) && exposed == old(exposed) && committed == tx.base && generation == tx.generation
        invariant Vouched() && (old(faulted) || rc != Ok ==> faulted)
        invariant rc == Ok && AllSucceeded(completions) ==> Flushed(tx, vol.seen.pages, page, 0)
        decreases end - page
      {
        rc := FlushPage(contents, page, tx);
        page := page + 1;
      }
      var drained := Drain();
      if rc == Ok { rc := drained; }
      if rc == Ok {
        FlushedEverything(tx, vol, page);
        rc := Commit(target, tx);
      }
    }

    /** kv_tier_commit: publish the new watermark once nothing is outstanding. */
    method Commit(count: nat, ghost tx: Tx) returns (rc: Status)
      requires Opened(tx, vol) && count == tx.target && generation == tx.generation && tx.pages == pages
      requires forall s :: s in tx.newPages && Covered(s, tx.target) ==> vol.seen.pages[s] == tx.newPages[s]
      modifies this`vol, this`committed, this`faulted, this`exposed
      ensures Opened(tx, vol) && exposed == old(exposed) && (old(faulted) ==> faulted)
      ensures rc == InvalidArgument <==> completions != [] || count < old(committed) || count > maxContext
      ensures rc != Ok && rc != InvalidArgument ==> faulted
      ensures rc == Ok ==> NewDurable(tx, vol) && committed == count && completions == []
      ensures rc != Ok ==> committed == old(committed)
    {
      if completions != [] || count < committed || count > maxContext {
        return InvalidArgument;
      }
      var previous := committed;
      committed := count;
      var ok := PwriteHeader(Header(true, generation, committed), tx);
      HeaderKeepsHeld(tx, old(vol), vol, NewHeader(tx), ok);
      SyncKeepsHeld(tx, vol);
      if ok { ok := Fdatasync(tx); }
      if !ok { committed := previous; }
      return if ok then Ok else IoError;
    }

    /** The publish step of save(): write, sync, rename, sync the directory. */
    method PublishManifest(m: Manifest, ghost tx: Tx) returns (rc: Status)
      requires Opened(tx, vol) && NewDurable(tx, vol) && m == tx.newManifest
      modifies this`vol, this`faulted, this`exposed
      ensures Safe(tx, vol) && exposed == old(exposed) && faulted == (old(faulted) || rc != Ok)
      ensures Journalled(tx, vol) && NewDurable(tx, vol)
      ensures rc == Ok ==> vol.manifests == {tx.newManifest}
    {
      ManifestTempKeeps(tx, vol, Some(Temp(m, true)));
      var ok := WriteManifestTemp(m, tx);
      ManifestTempKeeps(tx, old(vol), vol.manifestTemp);
      if !ok { return IoError; }
      ok := SyncManifestTemp(tx);
      if !ok { return IoError; }
      ghost var before := vol;
      ok := RenameManifest(tx);
      ManifestPlaced(tx, before);
      if ok { ok := SyncDirectory(tx); }
      return if ok then Ok else IoError;
    }

    /** Pages, watermark and manifest; `attempted` once the manifest may have been published. */
    method WriteNewSide(contents: map<Slot, nat>, target: nat, m: Manifest, ghost tx: Tx) returns (rc: Status, attempted: bool)
      requires Opened(tx, vol) && tx.pages == pages && tx.generation == generation && tx.base == committed && completions == []
      requires tx.target == target && m == tx.newManifest && contents == tx.newPages
      modifies this
      ensures Safe(tx, vol) && exposed == old(exposed) && generation == old(generation)
      ensures !attempted ==> rc != Ok && Opened(tx, vol)
      ensures rc == Ok ==> Settled(tx, vol) && vol.manifests == {tx.newManifest} && committed == target && completions == []
      ensures old(faulted) || (rc != Ok && target <= maxContext) ==> faulted
      ensures !faulted ==> completions == []
    {
      attempted := false;
      rc := PersistPages(contents, target, tx);
      if rc != Ok { return; }
      attempted := true;
      rc := PublishManifest(m, tx);
    }

    /** A whole append: begin, pages and watermark, manifest, discard.  Until publication is
        attempted a failure rolls back; afterwards the next restart decides. */
    method Append(contents: map<Slot, nat>, base: nat, target: nat, m: Manifest, ghost tx: Tx)
      returns (rc: Status, rolledBack: Option<Status>, attempted: bool)
      requires Idle(tx, vol)
      requires tx.pages == pages && tx.generation == generation && tx.base == committed <= maxContext
      requires tx.target == target && m == tx.newManifest && contents == tx.newPages
      modifies this
      ensures Safe(tx, vol) && exposed == old(exposed)
      ensures rc == Ok ==> vol.journals == {None} && vol.manifests == {tx.newManifest} && AllNew(tx, vol.seen)
      ensures rc == Ok ==> committed == target && completions == [] && generation == old(generation) && Settled(tx, vol)
      ensures rc != Ok ==> faulted || old(completions) != [] || base != old(committed) || target > maxContext
      ensures !attempted ==> rc != Ok && vol.manifests == {tx.oldManifest}
      ensures rolledBack.Some? ==> !attempted
      ensures rolledBack == Some(Ok) ==>
                && Idle(tx, vol) && vol.journals == {None} && AllOld(tx, vol.seen)
                && committed == tx.base && generation == tx.generation && completions == []
      ensures !attempted && rolledBack.None? ==>
                AllOld(tx, vol.seen) && committed == old(committed) && generation == old(generation) && completions == old(completions)
    {
      rolledBack, attempted := None, false;
      rc := TransactionBegin(base, tx);
      if rc != Ok { return; }
      rc, attempted := WriteNewSide(contents, target, m, tx);
      if rc == Ok {
        rc := TransactionDiscard(tx);
      } else if !attempted {
        var status := TransactionRollback(tx);
        rolledBack := Some(status);
        if status != Ok { rc := status; }
      }
    }

    /**
     transaction_recover_file, in any state the program may call it in: after a power loss, after the
     process was killed, or on the next activation in the same process.  What it shows is always the
     recovered disk; it never leaves the invariant exactly when the entries it acts on are durable.
     */
    method TransactionRecoverFile(ghost tx: Tx) returns (rc: Status)
      requires Safe(tx, vol) && Distinguished(tx)
      modifies this`vol, this`faulted, this`exposed
      ensures faulted == (old(faulted) || rc != Ok) && (old(exposed) ==> exposed)
      ensures rc == Ok ==> vol.seen == RecoverDisk(old(vol).seen).1 && vol.seen.journal == None
      ensures rc == Ok ==> AllOld(tx, vol.seen) || AllNew(tx, vol.seen)
      ensures old(Recoverable(tx, vol)) ==> exposed == old(exposed) && Safe(tx, vol) && Recoverable(tx, vol)
      ensures old(Recoverable(tx, vol)) && rc == Ok ==> Settled(tx, vol)
      ensures !old(Recoverable(tx, vol)) && rc == Ok ==> exposed
      ensures rc != Ok ==> vol.seen.journal == old(vol).seen.journal || vol.seen == RecoverDisk(old(vol).seen).1
      ensures vol.manifests == old(vol).manifests || vol.manifests == {vol.seen.manifest}
      ensures vol.seen.manifest == old(vol).seen.manifest
    {
      SafeSurvivorsRecover(tx, vol, vol.seen);
      var readable: bool := *;
      if !readable {
        faulted := true;
        return IoError;
      }
      if vol.seen.journal.None? {
        return Ok;
      }
      var j := vol.seen.journal.value;
      rc := IoError;
      if JournalLoads(j) {
        if vol.seen.manifest.committed == j.base {
          rc := RestoreTransaction(j, tx);
        } else if vol.seen.header.valid && vol.seen.header.generation == j.oldHeader.generation
                  && vol.seen.header.committed == vol.seen.manifest.committed {
          rc := Ok;
        }
      }
      if rc == Ok {
        rc := TransactionDiscard(tx);
      }
    }

    /** A new process opens the file and takes the watermark from its header. */
    method Reopen()
      modifies this`generation, this`committed, this`completions
      ensures generation == vol.seen.header.generation && committed == vol.seen.header.committed && completions == []
    {
      generation, committed, completions := vol.seen.header.generation, vol.seen.header.committed, [];
    }

    /** Power is lost and the machine comes back with `d`. */
    method Restart(d: Disk, ghost tx: Tx)
      requires Safe(tx, vol) && Survivor(vol, d)
      modifies this`vol
      ensures vol == Restarted(d) && Safe(tx, vol) && Recoverable(tx, vol)
    {
      RestartKeepsSafe(tx, vol, d);
      vol := Restarted(d);
    }

    /**
     However often power is lost or the process is killed, also inside recovery, no moment of it is
     exposed, and the first recovery that completes ends with manifest, header and covered pages all
     old or all new, and the journal gone.
     */
    method RecoverThroughCrashes(rounds: nat, ghost tx: Tx) returns (rc: Status)
      requires Safe(tx, vol) && Distinguished(tx) && Recoverable(tx, vol)
      modifies this`vol, this`faulted, this`exposed
      ensures Safe(tx, vol) && Recoverable(tx, vol) && exposed == old(exposed)
      ensures vol.manifests == old(vol).manifests || vol.manifests == {vol.seen.manifest}
      ensures vol.manifests <= old(vol).manifests
      ensures rc == Ok ==> vol.seen.journal == None && Settled(tx, vol) && (AllOld(tx, vol.seen) || AllNew(tx, vol.seen))
    {
      for k := 0 to rounds
        invariant Safe(tx, vol) && Recoverable(tx, vol) && exposed == old(exposed)
        invariant vol.manifests == old(vol).manifests || vol.manifests == {vol.seen.manifest}
        invariant vol.manifests <= old(vol).manifests
      {
        var powerLost: bool, d: Disk := *, *;
        if powerLost && Survivor(vol, d) { Restart(d, tx); }
        rc := TransactionRecoverFile(tx);
        if rc == Ok { return; }
      }
      rc := IoError;
    }
  }
}
