/**
 The session root directory under garbage collection: a namespace is renamed to a tombstone, the
 rename is made durable, and only then are its files removed. Every system call may fail, and a
 crash may come after any of them.
 */
module SessionRoot {
  import opened Common
  import opened SessionNames
  import opened SessionGc

  /** Directory names with their files as the process sees them, and the renames no fsync has covered yet, from live
      names to tombstones. */
  datatype Root = Root(dirs: map<string, set<string>>, pending: map<string, string>)

  /** The complete contents of every session namespace, by its live name. */
  type Born = map<string, set<string>>

  predicate IsTombstone(name: string) { ParseTombstone(name).Some? }

  function Files(r: Root, name: string): set<string> {
    if name in r.dirs then r.dirs[name] else {}
  }

  /** Names are live or tombstones, no directory holds more than its session had, and a renamed session is out of sight. */
  ghost predicate Formed(r: Root, born: Born) {
    && (forall d :: d in r.dirs ==> IsLowerHex32(d) || IsTombstone(d))
    && (forall d :: d in r.dirs && IsLowerHex32(d) ==> d in born && r.dirs[d] <= born[d])
    && (forall d :: d in r.pending ==> MayReturn(r, born, d))
  }

  ghost predicate MayReturn(r: Root, born: Born, live: string)
    requires live in r.pending
  {
    && IsLowerHex32(live) && live !in r.dirs && live in born
    && ParseTombstone(r.pending[live]) == Some(live) && Files(r, r.pending[live]) <= born[live]
  }

  /** The rename to this tombstone may still be undone. */
  predicate Undurable(r: Root, tomb: string) {
    IsTombstone(tomb) && var live := ParseTombstone(tomb).value; live in r.pending && r.pending[live] == tomb
  }

  /** A directory tree a crash may leave: an uncovered rename may be undone, whole or with some removals kept. */
  ghost predicate Survives(r: Root, born: Born, disk: map<string, set<string>>) {
    && (forall d :: d in disk ==> IsLowerHex32(d) || IsTombstone(d))
    && (forall d :: IsLowerHex32(d) && d !in r.pending ==>
          (d in disk <==> d in r.dirs) && (d in disk ==> disk[d] == r.dirs[d]))
    && (forall d :: d in r.pending && d in disk && d in born ==> Files(r, r.pending[d]) <= disk[d] <= born[d])
  }

  /** Every session that can still be looked up is complete. */
  ghost predicate Whole(dirs: map<string, set<string>>, born: Born) {
    forall d :: d in dirs && IsLowerHex32(d) ==> d in born && dirs[d] == born[d]
  }

  /** What the collector keeps: live sessions are complete, and so is a tombstone that may come back. */
  ghost predicate Safe(r: Root, born: Born) {
    && Formed(r, born) && Whole(r.dirs, born)
    && (forall d :: d in r.pending ==> Files(r, r.pending[d]) == born[d])
  }

  lemma SafeSurvivors(r: Root, born: Born, disk: map<string, set<string>>)
    requires Safe(r, born) && Survives(r, born, disk)
    ensures Whole(disk, born)
  {
    forall d | d in disk && IsLowerHex32(d) ensures d in born && disk[d] == born[d] {
      if d in r.pending {
        assert MayReturn(r, born, d) && Files(r, r.pending[d]) <= disk[d];
      } else {
        assert d in r.dirs;
      }
    }
  }

  /** The worst a crash can leave: every rename is undone and every removal is kept. */
  ghost function Worst(r: Root): map<string, set<string>> {
    map d | d in r.dirs.Keys + r.pending.Keys && IsLowerHex32(d) :: if d in r.pending then Files(r, r.pending[d]) else r.dirs[d]
  }

  /** Safe is exactly what crash-proof means: nothing weaker would do. */
  lemma SafeIffSurvivorsWhole(r: Root, born: Born)
    requires Formed(r, born)
    ensures Survives(r, born, Worst(r))
    ensures Safe(r, born) <==> forall disk :: Survives(r, born, disk) ==> Whole(disk, born)
  {
    forall d | d in r.pending ensures IsLowerHex32(d) && d !in r.dirs && Files(r, r.pending[d]) <= born[d] {
      assert MayReturn(r, born, d);
    }
    if forall disk :: Survives(r, born, disk) ==> Whole(disk, born) {
      assert Survives(r, born, Worst(r));
      forall d | d in r.dirs && IsLowerHex32(d) ensures d in born && r.dirs[d] == born[d] {
        assert d in Worst(r) && Worst(r)[d] == r.dirs[d];
      }
      forall d | d in r.pending ensures Files(r, r.pending[d]) == born[d] { assert d in Worst(r); }
    }
    if Safe(r, born) {
      forall disk | Survives(r, born, disk) ensures Whole(disk, born) { SafeSurvivors(r, born, disk); }
    }
  }

  // ------------------------------------------------------ system calls on values

  function Renamed(r: Root, live: string, tomb: string): Root
    requires live in r.dirs
  {
    Root((r.dirs - {live})[tomb := r.dirs[live]], r.pending[live := tomb])
  }

  function Unlinked(r: Root, name: string, file: string): Root
    requires name in r.dirs
  {
    r.(dirs := r.dirs[name := r.dirs[name] - {file}])
  }

  lemma RenamedSafe(r: Root, born: Born, live: string, tomb: string)
    requires Safe(r, born) && live in r.dirs && IsLowerHex32(live)
    requires ParseTombstone(tomb) == Some(live) && tomb !in r.dirs
    ensures Safe(Renamed(r, live, tomb), born)
  {
    NotLive(tomb);
    var r' := Renamed(r, live, tomb);
    forall d | d in r'.pending ensures MayReturn(r', born, d) && Files(r', r'.pending[d]) == born[d] {
      if d != live { assert MayReturn(r, born, d); }
    }
  }

  /** Covering every rename leaves nothing a crash could bring back. */
  lemma SyncedSafe(r: Root, born: Born)
    requires Formed(r, born) && Whole(r.dirs, born)
    ensures Safe(r.(pending := map[]), born)
  {
  }

  /** Removing a file of a tombstone is safe exactly when the tombstone's own rename is durable. */
  lemma UnlinkSafeIffDurable(r: Root, born: Born, tomb: string, file: string)
    requires Safe(r, born) && IsTombstone(tomb) && tomb in r.dirs && file in r.dirs[tomb]
    ensures Safe(Unlinked(r, tomb, file), born) <==> !Undurable(r, tomb)
  {
    NotLive(tomb);
    var r' := Unlinked(r, tomb, file);
    if Undurable(r, tomb) {
      var live := ParseTombstone(tomb).value;
      assert file in born[live] && file !in Files(r', r'.pending[live]);
    } else {
      forall d | d in r'.pending ensures MayReturn(r', born, d) && Files(r', r'.pending[d]) == born[d] {
        assert MayReturn(r, born, d);
      }
    }
  }

  /**
   A run that starts while a rename is still uncovered (the fsync of an earlier run failed) may lose
   files of a session the next crash brings back.
   */
  lemma UncoveredTombstone() returns (r: Root, born: Born, tomb: string)
    ensures Safe(r, born) && Uncovered(r, [tomb]) && "f" in r.dirs[tomb] && !Safe(Unlinked(r, tomb, "f"), born)
  {
    var live := seq(32, _ => '0');
    tomb := TombstoneName(live, 1, 1, 1);
    TombstoneRecognised(live, 1, 1, 1);
    NotLive(tomb);
    r, born := Root(map[tomb := {"f"}], map[live := tomb]), map[live := {"f"}];
    assert MayReturn(r, born, live);
    UnlinkSafeIffDurable(r, born, tomb, "f");
  }

  /** The first tombstone the run finishes still has files, and its own rename may be undone. */
  predicate Uncovered(r: Root, scanned: seq<string>) {
    scanned != [] && Risky(r, scanned[0])
  }

  predicate Risky(r: Root, tomb: string) { Undurable(r, tomb) && tomb in r.dirs && r.dirs[tomb] != {} }

  lemma NotLive(tomb: string)
    requires IsTombstone(tomb)
    ensures !IsLowerHex32(tomb)
  {
    if IsLowerHex32(tomb) { LiveIsNotTombstone(tomb); }
  }

  /** Everything but the tombstone `tomb` is as before. */
  ghost predicate OnlyLess(before: Root, after: Root, tomb: string) {
    && (after.pending == before.pending || after.pending == map[])
    && (forall d :: d != tomb ==> (d in after.dirs <==> d in before.dirs))
    && (forall d :: d != tomb && d in after.dirs ==> after.dirs[d] == before.dirs[d])
    && (tomb in after.dirs ==> tomb in before.dirs && after.dirs[tomb] <= before.dirs[tomb])
  }

  /** A shrinking tombstone harms no session in sight. */
  lemma OnlyLessWhole(before: Root, after: Root, born: Born, tomb: string)
    requires Formed(before, born) && Whole(before.dirs, born) && IsTombstone(tomb) && OnlyLess(before, after, tomb)
    ensures Formed(after, born) && Whole(after.dirs, born)
    ensures SameLiveBut(before, after, {})
  {
    NotLive(tomb);
    forall d | d in after.pending ensures MayReturn(after, born, d) { assert MayReturn(before, born, d); }
  }

  /** Nor one that may come back, unless it is the tombstone's own and loses files. */
  lemma OnlyLessSafe(before: Root, after: Root, born: Born, tomb: string)
    requires Safe(before, born) && IsTombstone(tomb) && OnlyLess(before, after, tomb)
    requires Undurable(before, tomb) ==> Files(before, tomb) == {} || after.pending == map[]
    ensures Safe(after, born)
  {
    OnlyLessWhole(before, after, born, tomb);
    forall d | d in after.pending ensures Files(after, after.pending[d]) == born[d] { assert MayReturn(before, born, d); }
  }

  /** The live part of the tree: what session lookup can see. */
  ghost predicate SameLiveBut(before: Root, after: Root, gone: set<string>) {
    forall d :: IsLowerHex32(d) && d !in gone ==>
      (d in after.dirs <==> d in before.dirs) && (d in after.dirs ==> after.dirs[d] == before.dirs[d])
  }

  // ------------------------------------------------------- superseded generations

  /** A file of a generation before `committed`. */
  predicate Superseded(name: string, stem: string, committed: nat) {
    ParseGeneration(name, stem).Some? && ParseGeneration(name, stem).value < committed
  }

  /** No file of the committed generation, of a later one, or of another kind is ever superseded. */
  lemma SupersededExactly(name: string, stem: string, committed: nat)
    ensures Superseded(name, stem, committed) <==>
            exists g: nat, suffix :: IsSuffix(suffix) && Positive(g) && g < committed && name == GenerationName(stem, g, suffix)
  {
    if Superseded(name, stem, committed) {
      var suffix := RecognisedIsGeneration(name, stem);
    }
    forall g: nat, suffix | IsSuffix(suffix) && Positive(g) && g < committed && name == GenerationName(stem, g, suffix)
      ensures Superseded(name, stem, committed)
    {
      GenerationRecognised(stem, g, suffix);
    }
  }

  /** The sessions among `chosen` that are marked to go. */
  ghost function Victims(chosen: seq<Entry>): set<string> {
    set i | 0 <= i < |chosen| && chosen[i].remove :: chosen[i].id
  }

  /** Every entry is a live session of the tree. */
  ghost predicate Present(entries: seq<Entry>, r: Root) {
    forall i :: 0 <= i < |entries| ==> IsLowerHex32(entries[i].id) && entries[i].id in r.dirs
  }

  /** The sessions in `gone` are gone, and if there were any, nothing is left to undo. */
  ghost predicate Cleared(first: Root, r: Root, gone: set<string>) {
    r.dirs == first.dirs - gone && r.pending == if gone == {} then first.pending else map[]
  }

  lemma ClearedLive(first: Root, r: Root, gone: set<string>)
    requires Cleared(first, r, gone)
    ensures SameLiveBut(first, r, gone)
  {
  }

  ghost predicate NoTombstone(r: Root) {
    forall d :: d in r.dirs ==> !IsTombstone(d)
  }

  lemma VictimsStep(chosen: seq<Entry>, i: nat)
    requires i < |chosen|
    ensures Victims(chosen[..i + 1]) == Victims(chosen[..i]) + if chosen[i].remove then {chosen[i].id} else {}
  {
    var a, b := chosen[..i], chosen[..i + 1];
    forall d | d in Victims(a) ensures d in Victims(b) {
      var k :| 0 <= k < |a| && a[k].remove && a[k].id == d;
      assert b[k] == a[k];
    }
    forall d | d in Victims(b) ensures d in Victims(a) || (chosen[i].remove && d == chosen[i].id) {
      var k :| 0 <= k < |b| && b[k].remove && b[k].id == d;
      if k < i { assert a[k] == b[k]; }
    }
    if chosen[i].remove { assert b[i].id in Victims(b); }
  }

  lemma VictimsNotLater(chosen: seq<Entry>, i: nat)
    requires i < |chosen| && Distinct(chosen)
    ensures chosen[i].id !in Victims(chosen[..i])
  {
    forall k | 0 <= k < i ensures chosen[..i][k].id != chosen[i].id { assert chosen[k].id != chosen[i].id; }
  }

  lemma VictimsWithin(chosen: seq<Entry>, i: nat)
    requires i <= |chosen|
    ensures Victims(chosen[..i]) <= Victims(chosen)
  {
    forall d | d in Victims(chosen[..i]) ensures d in Victims(chosen) {
      var k :| 0 <= k < i && chosen[..i][k].remove && chosen[..i][k].id == d;
      assert chosen[k].id == d;
    }
  }

  /** Choosing and ordering keeps the entries apart and in the tree. */
  lemma ChosenPresent(p: Policy, entries: seq<Entry>, order: seq<Entry>, chosen: seq<Entry>, cut: nat, r: Root)
    requires Present(entries, r) && Distinct(order) && multiset(order) == multiset(Marked(p, entries))
    requires Selected(p, order, chosen, cut)
    ensures Distinct(chosen) && Present(chosen, r) && |chosen| == |entries|
  {
    assert |multiset(order)| == |order| && |multiset(Marked(p, entries))| == |entries|;
    forall i | 0 <= i < |chosen| ensures IsLowerHex32(chosen[i].id) && chosen[i].id in r.dirs {
      assert order[i] in multiset(Marked(p, entries));
      var k :| 0 <= k < |entries| && Marked(p, entries)[k] == order[i];
      assert entries[k].id == chosen[i].id;
    }
    forall i, j | 0 <= i < j < |chosen| ensures chosen[i].id != chosen[j].id {
      assert order[i].id != order[j].id;
    }
  }

  ghost function SetOf(names: seq<string>): set<string> {
    set i | 0 <= i < |names| :: names[i]
  }

  lemma SetOfNext(names: seq<string>, i: nat)
    requires i < |names|
    ensures SetOf(names[..i + 1]) == SetOf(names[..i]) + {names[i]}
  {
    var a, b := names[..i], names[..i + 1];
    assert b[i] == names[i] && forall k :: 0 <= k < i ==> b[k] == a[k];
  }

  /** A finished tombstone joins those that are gone. */
  lemma OneLess(first: Root, before: Root, after: Root, tomb: string, gone: set<string>)
    requires OnlyLess(before, after, tomb) && tomb !in after.dirs && before.dirs == first.dirs - gone
    ensures after.dirs == first.dirs - (gone + {tomb})
  {
  }

  /** One removal, or a failed attempt at one, while a tombstone is emptied. */
  lemma UnlinkStep(first: Root, before: Root, after: Root, born: Born, tomb: string, file: string)
    requires Safe(first, born) && IsTombstone(tomb) && tomb in first.dirs && tomb in before.dirs
    requires OnlyLess(first, before, tomb) && before.pending == first.pending
    requires after == before || after == Unlinked(before, tomb, file)
    ensures OnlyLess(first, after, tomb)
    ensures !Risky(first, tomb) ==> Safe(after, born)
    ensures Risky(first, tomb) && after.dirs[tomb] != first.dirs[tomb] ==> !Safe(after, born)
  {
    if !Risky(first, tomb) { OnlyLessSafe(first, after, born, tomb); }
    if Risky(first, tomb) && after.dirs[tomb] != first.dirs[tomb] {
      var live := ParseTombstone(tomb).value;
      assert Files(first, first.pending[live]) == born[live] != Files(after, after.pending[live]);
    }
  }

  class Collector {
    var r: Root
    var sequence: nat
    ghost const born: Born
    /** Some system call has failed on its own account. */
    ghost var faulted: bool
    /** In some state so far a crash could have left a session incomplete. */
    ghost var exposed: bool

    constructor (dirs: map<string, set<string>>, ghost sessions: Born)
      requires Safe(Root(dirs, map[]), sessions)
      ensures Safe(r, born) && r == Root(dirs, map[]) && born == sessions && sequence == 0 && !faulted && !exposed
    {
      r, sequence, born, faulted, exposed := Root(dirs, map[]), 0, sessions, false, false;
    }

    method Fault() returns (fails: bool)
      modifies this`faulted
      ensures faulted == (old(faulted) || fails)
    {
      fails := *;
      faulted := faulted || fails;
    }

    /** renameat2 without replacement. */
    method RenameNoReplace(live: string, tomb: string) returns (ok: bool)
      modifies this`r, this`faulted, this`exposed
      ensures old(faulted) ==> faulted
      ensures !ok ==> r == old(r) && (faulted || live !in r.dirs || tomb in r.dirs)
      ensures ok ==> live in old(r).dirs && tomb !in old(r).dirs && r == Renamed(old(r), live, tomb)
      ensures exposed == (old(exposed) || !Safe(r, born))
    {
      var fails := Fault();
      ok := !fails && live in r.dirs && tomb !in r.dirs;
      if ok { r := Renamed(r, live, tomb); }
      exposed := exposed || !Safe(r, born);
    }

    /** fsync of the root directory covers every rename so far. */
    method SyncRoot() returns (ok: bool)
      modifies this`r, this`faulted, this`exposed
      ensures r == if ok then old(r).(pending := map[]) else old(r)
      ensures old(faulted) || !ok ==> faulted
      ensures exposed == (old(exposed) || !Safe(r, born))
    {
      var fails := Fault();
      ok := !fails;
      if ok { r := r.(pending := map[]); }
      exposed := exposed || !Safe(r, born);
    }

    /** unlinkat of one artifact; an artifact that is gone already is no failure. */
    method Unlink(name: string, file: string) returns (ok: bool)
      requires name in r.dirs
      modifies this`r, this`faulted, this`exposed
      ensures r == if ok then Unlinked(old(r), name, file) else old(r)
      ensures old(faulted) || !ok ==> faulted
      ensures exposed == (old(exposed) || !Safe(r, born))
    {
      var fails := Fault();
      ok := !fails;
      if ok { r := Unlinked(r, name, file); }
      exposed := exposed || !Safe(r, born);
    }

    /** unlinkat of an empty directory. */
    method RemoveDirectory(name: string) returns (ok: bool)
      modifies this`r, this`faulted, this`exposed
      ensures ok ==> name in old(r).dirs && old(r).dirs[name] == {} && r == old(r).(dirs := old(r).dirs - {name})
      ensures !ok ==> r == old(r) && (faulted || name !in r.dirs || r.dirs[name] != {})
      ensures old(faulted) ==> faulted
      ensures exposed == (old(exposed) || !Safe(r, born))
    {
      var fails := Fault();
      ok := !fails && name in r.dirs && r.dirs[name] == {};
      if ok { r := r.(dirs := r.dirs - {name}); }
      exposed := exposed || !Safe(r, born);
    }

    /** The first removal decides: it is harmless if and only if the tombstone's rename is durable. */
    method UnlinkAll(tomb: string, files: set<string>) returns (ok: bool)
      requires Safe(r, born) && IsTombstone(tomb) && tomb in r.dirs && r.dirs[tomb] <= files
      modifies this`r, this`faulted, this`exposed
      ensures OnlyLess(old(r), r, tomb) && tomb in r.dirs && r.pending == old(r).pending
      ensures ok ==> r.dirs[tomb] == {}
      ensures old(faulted) || !ok ==> faulted
      ensures !Risky(old(r), tomb) ==> exposed == old(exposed)
      ensures Risky(old(r), tomb) && ok ==> exposed
    {
      var rest := files;
      while rest != {}
        invariant rest <= files && OnlyLess(old(r), r, tomb) && tomb in r.dirs && r.pending == old(r).pending
        invariant r.dirs[tomb] == old(r).dirs[tomb] - (files - rest)
        invariant old(faulted) ==> faulted
        invariant !Risky(old(r), tomb) ==> exposed == old(exposed)
        invariant Risky(old(r), tomb) && r.dirs[tomb] != old(r).dirs[tomb] ==> exposed
      {
        var f :| f in rest;
        ghost var before := r;
        var done := Unlink(tomb, f);
        UnlinkStep(old(r), before, r, born, tomb, f);
        if !done { return false; }
        rest := rest - {f};
      }
      ok := true;
    }

    /** Finish one tombstone: its files, their removal made durable, the directory, the root. */
    method RemoveNamespace(tomb: string, files: set<string>) returns (ok: bool)
      requires Safe(r, born) && IsTombstone(tomb) && tomb in r.dirs && r.dirs[tomb] <= files
      modifies this`r, this`faulted, this`exposed
      ensures OnlyLess(old(r), r, tomb)
      ensures ok ==> tomb !in r.dirs && r.pending == map[] && Safe(r, born)
      ensures old(faulted) || !ok ==> faulted
      ensures !Risky(old(r), tomb) ==> Safe(r, born) && exposed == old(exposed)
      ensures Risky(old(r), tomb) && ok ==> exposed
    {
      var fails := Fault();
      if fails { return false; }
      ok := UnlinkAll(tomb, files);
      if !Risky(old(r), tomb) { OnlyLessSafe(old(r), r, born, tomb); }
      if !ok { return; }
      fails := Fault();
      if fails { return false; }
      ok := RemoveDirectory(tomb);
      if !Risky(old(r), tomb) { OnlyLessSafe(old(r), r, born, tomb); }
      if !ok { return; }
      ok := SyncRoot();
      if ok || !Risky(old(r), tomb) { OnlyLessSafe(old(r), r, born, tomb); }
    }

    /** Tombstones an earlier run left behind, in the order of the scan.  Only the first can meet an uncovered rename:
        finishing it covers them all. */
    method FinishTombstones(scanned: seq<string>) returns (ok: bool)
      requires Safe(r, born)
      requires forall i :: 0 <= i < |scanned| ==> IsTombstone(scanned[i]) && scanned[i] in r.dirs
      requires forall i, j :: 0 <= i < j < |scanned| ==> scanned[i] != scanned[j]
      modifies this`r, this`faulted, this`exposed
      ensures Formed(r, born) && Whole(r.dirs, born) && SameLiveBut(old(r), r, {})
      ensures ok ==> Safe(r, born) && r.dirs == old(r).dirs - SetOf(scanned)
      ensures ok ==> r.pending == if scanned == [] then old(r).pending else map[]
      ensures old(faulted) || !ok ==> faulted
      ensures !Uncovered(old(r), scanned) ==> Safe(r, born) && exposed == old(exposed)
      ensures Uncovered(old(r), scanned) && ok ==> exposed
    {
      for i := 0 to |scanned|
        invariant Safe(r, born) && SameLiveBut(old(r), r, {})
        invariant r.dirs == old(r).dirs - SetOf(scanned[..i])
        invariant r.pending == if i == 0 then old(r).pending else map[]
        invariant old(faulted) ==> faulted
        invariant !Uncovered(old(r), scanned) ==> exposed == old(exposed)
        invariant i > 0 && Uncovered(old(r), scanned) ==> exposed
      {
        var t := scanned[i];
        assert t !in SetOf(scanned[..i]);
        ghost var before := r;
        ok := RemoveNamespace(t, r.dirs[t]);
        OnlyLessWhole(before, r, born, t);
        if !ok { return; }
        SetOfNext(scanned, i);
        OneLess(old(r), before, r, t, SetOf(scanned[..i]));
      }
      assert scanned[..|scanned|] == scanned;
      ok := true;
    }

    /** The namespace goes out of sight, durably so on success. */
    method Bury(id: string, tomb: string) returns (ok: bool)
      requires Safe(r, born) && IsLowerHex32(id) && id in r.dirs && ParseTombstone(tomb) == Some(id)
      modifies this`r, this`faulted, this`exposed
      ensures Safe(r, born) && exposed == old(exposed) && SameLiveBut(old(r), r, {id})
      ensures ok ==> tomb !in old(r).dirs && r == Root((old(r).dirs - {id})[tomb := old(r).dirs[id]], map[])
      ensures old(faulted) ==> faulted
      ensures !ok ==> faulted || tomb in old(r).dirs
    {
      NotLive(tomb);
      ok := RenameNoReplace(id, tomb);
      if !ok { return; }
      RenamedSafe(old(r), born, id, tomb);
      SyncedSafe(r, born);
      ok := SyncRoot();
    }

    /** One victim: out of sight, durably so, and only then removed. */
    method RemoveSession(id: string, pid: nat, now: nat) returns (ok: bool)
      requires Safe(r, born) && IsLowerHex32(id) && id in r.dirs
      requires Positive(pid) && Positive(now) && Positive(sequence + 1)
      modifies this
      ensures Safe(r, born) && exposed == old(exposed) && sequence == old(sequence) + 1 && SameLiveBut(old(r), r, {id})
      ensures ok ==> r.pending == map[] && r.dirs == old(r).dirs - {id}
      ensures old(faulted) ==> faulted
      ensures !ok ==> faulted || TombstoneName(id, pid, now, sequence) in old(r).dirs
    {
      sequence := sequence + 1;
      var tomb := TombstoneName(id, pid, now, sequence);
      TombstoneRecognised(id, pid, now, sequence);
      NotLive(tomb);
      var files := r.dirs[id];
      ok := Bury(id, tomb);
      if !ok { return; }
      ok := RemoveNamespace(tomb, files);
      if ok { assert r.dirs == old(r).dirs - {id}; }
    }

    method RemoveVictims(chosen: seq<Entry>, pid: nat, now: nat) returns (ok: bool)
      requires Safe(r, born) && Distinct(chosen) && Present(chosen, r)
      requires Positive(pid) && Positive(now) && sequence + |chosen| < U64
      modifies this
      ensures Safe(r, born) && exposed == old(exposed) && SameLiveBut(old(r), r, Victims(chosen))
      ensures ok ==> r.dirs == old(r).dirs - Victims(chosen)
      ensures ok ==> r.pending == if Victims(chosen) == {} then old(r).pending else map[]
      ensures old(faulted) ==> faulted
      ensures !ok ==> faulted || !NoTombstone(old(r))
    {
      for i := 0 to |chosen|
        invariant Safe(r, born) && exposed == old(exposed) && sequence <= old(sequence) + i
        invariant Cleared(old(r), r, Victims(chosen[..i]))
        invariant old(faulted) ==> faulted
      {
        if chosen[i].remove {
          ok := RemoveNext(chosen, i, pid, now, old(r));
          if !ok { return; }
        } else {
          VictimsStep(chosen, i);
        }
      }
      assert chosen[..|chosen|] == chosen;
      ClearedLive(old(r), r, Victims(chosen));
      ok := true;
    }

    method RemoveNext(chosen: seq<Entry>, i: nat, pid: nat, now: nat, ghost first: Root) returns (ok: bool)
      requires Safe(r, born) && Distinct(chosen) && Present(chosen, first) && i < |chosen| && chosen[i].remove
      requires Cleared(first, r, Victims(chosen[..i]))
      requires Positive(pid) && Positive(now) && Positive(sequence + 1)
      modifies this
      ensures Safe(r, born) && exposed == old(exposed) && sequence == old(sequence) + 1
      ensures ok ==> Cleared(first, r, Victims(chosen[..i + 1]))
      ensures old(faulted) ==> faulted
      ensures !ok ==> SameLiveBut(first, r, Victims(chosen)) && (faulted || !NoTombstone(first))
    {
      var id := chosen[i].id;
      VictimsStep(chosen, i);
      VictimsNotLater(chosen, i);
      ok := RemoveSession(id, pid, now);
      VictimsWithin(chosen, i + 1);
      TombstoneRecognised(id, pid, now, sequence);
    }

    /** The machine stops and comes back: memory is gone and the disk holds some survivor. */
    method Restart(disk: map<string, set<string>>)
      requires Safe(r, born) && Survives(r, born, disk)
      modifies this
      ensures r == Root(disk, map[]) && Safe(r, born) && !faulted && exposed == old(exposed)
    {
      SafeSurvivors(r, born, disk);
      r, sequence, faulted := Root(disk, map[]), 0, false;
    }

    /** prune_stale_sessions after its scan.  No state of the run endangers a session, unless the first tombstone it
        finishes has files and an uncovered rename; a run that succeeds from there did. */
    method PruneStaleSessions(policy: Policy, entries: seq<Entry>, scanned: seq<string>, pid: nat)
      returns (ok: bool, chosen: seq<Entry>, ghost order: seq<Entry>, ghost cut: nat)
      requires Safe(r, born) && Distinct(entries) && Present(entries, r)
      requires forall i :: 0 <= i < |entries| ==> !entries[i].remove
      requires forall i :: 0 <= i < |scanned| ==> IsTombstone(scanned[i]) && scanned[i] in r.dirs
      requires forall i, j :: 0 <= i < j < |scanned| ==> scanned[i] != scanned[j]
      requires Positive(pid) && policy.now < U64 && sequence + |entries| < U64
      modifies this
      ensures !Uncovered(old(r), scanned) ==> Safe(r, born) && exposed == old(exposed)
      ensures Uncovered(old(r), scanned) && ok ==> exposed
      ensures Formed(r, born) && Whole(r.dirs, born) && SameLiveBut(old(r), r, Victims(chosen))
      ensures ok ==> policy.now != 0 && Safe(r, born) && r.dirs == old(r).dirs - SetOf(scanned) - Victims(chosen)
      ensures ok || chosen != [] ==>
        && Sorted(order) && multiset(order) == multiset(Marked(policy, entries))
        && Selected(policy, order, chosen, cut) && RightCut(policy, order, cut)
      ensures !ok ==> policy.now == 0 || faulted || exists d :: d in old(r).dirs && IsTombstone(d) && d !in SetOf(scanned)
    {
      chosen, order, cut := [], [], 0;
      if policy.now == 0 { return false, [], [], 0; }
      ok := FinishTombstones(scanned);
      if !ok { return; }
      TombstonesAreNotLive(scanned);
      chosen, order, cut := ChooseVictims(policy, entries);
      ChosenPresent(policy, entries, order, chosen, cut, r);
      ok := RemoveVictims(chosen, pid, policy.now);
    }
  }

  lemma TombstonesAreNotLive(scanned: seq<string>)
    requires forall i :: 0 <= i < |scanned| ==> IsTombstone(scanned[i])
    ensures forall d :: d in SetOf(scanned) ==> !IsLowerHex32(d)
  {
    forall d | d in SetOf(scanned) ensures !IsLowerHex32(d) { NotLive(d); }
  }

  datatype Kind = Regular | Other

  class Namespace {
    /** Directory entries; only regular files are ever removed. */
    var files: map<string, Kind>

    constructor (entries: map<string, Kind>)
      ensures files == entries
    {
      files := entries;
    }

    method UnlinkOne(name: string) returns (ok: bool)
      modifies this
      ensures files == if ok then old(files) - {name} else old(files)
    {
      if * { return false; }
      files := files - {name};
      ok := true;
    }

    /** prune_obsolete_generations: whatever fails, only superseded regular files go; on success all of them. */
    method PruneObsolete(stem: string, committed: nat) returns (ok: bool, removed: nat)
      modifies this
      ensures files.Keys <= old(files).Keys && removed == |old(files)| - |files|
      ensures forall f :: f in files ==> files[f] == old(files)[f]
      ensures forall f :: f in old(files) && f !in files ==> Superseded(f, stem, committed) && old(files)[f] == Regular
      ensures ok ==> committed != 0 && forall f :: f in files && files[f] == Regular ==> !Superseded(f, stem, committed)
    {
      if committed == 0 { return false, 0; }
      var left, names := files.Keys, files;
      removed := 0;
      while left != {}
        invariant left <= files.Keys <= names.Keys && removed == |names| - |files|
        invariant forall f :: f in files ==> files[f] == names[f]
        invariant forall f :: f in names && f !in files ==> Superseded(f, stem, committed) && names[f] == Regular
        invariant forall f :: f in files && f !in left && files[f] == Regular ==> !Superseded(f, stem, committed)
      {
        var name :| name in left;
        left := left - {name};
        if Superseded(name, stem, committed) {
          var stat: bool := *;
          if !stat { return false, removed; }
          if files[name] == Regular {
            var before := files;
            var done := UnlinkOne(name);
            if !done { return false, removed; }
            assert before == files[name := Regular];
            removed := removed + 1;
          }
        }
      }
      var synced: bool := *;
      if removed != 0 && !synced { return false, removed; }
      ok := true;
    }
  }
}
