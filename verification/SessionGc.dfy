/**
 Session garbage collection of src/axiom_qwen38_session_store.cpp: which sessions go, and why a
 crash never leaves a live session partly deleted.
 */
module SessionGc {
  import opened Common

  // ---------------------------------------------------------- choosing victims

  datatype Entry = Entry(id: string, lastUsed: nat, shielded: bool, remove: bool)

  /** A limit of 0 means no limit. */
  datatype Policy = Policy(now: nat, ttl: nat, maxSessions: nat)

  /** Idle for at least the time to live, and not protected. */
  predicate Expired(p: Policy, e: Entry) {
    p.ttl != 0 && !e.shielded && e.lastUsed <= p.now && p.now - e.lastUsed >= p.ttl
  }

  /** Byte-wise string order. */
  predicate AtMost(a: string, b: string) {
    a == [] || (b != [] && (a[0] < b[0] || (a[0] == b[0] && AtMost(a[1..], b[1..]))))
  }

  lemma {:induction false} AtMostTotal(a: string, b: string)
    ensures AtMost(a, b) || AtMost(b, a)
  {
    if a != [] && b != [] && a[0] == b[0] { AtMostTotal(a[1..], b[1..]); }
  }

  lemma {:induction false} AtMostTransitive(a: string, b: string, c: string)
    requires AtMost(a, b) && AtMost(b, c)
    ensures AtMost(a, c)
  {
    if a != [] && a[0] == b[0] == c[0] { AtMostTransitive(a[1..], b[1..], c[1..]); }
  }

  /** Collection order: least recently used first, then by name. */
  predicate Older(a: Entry, b: Entry) {
    a.lastUsed < b.lastUsed || (a.lastUsed == b.lastUsed && AtMost(a.id, b.id))
  }

  lemma OlderTransitive(a: Entry, b: Entry, c: Entry)
    requires Older(a, b) && Older(b, c)
    ensures Older(a, c)
  {
    if a.lastUsed == b.lastUsed == c.lastUsed { AtMostTransitive(a.id, b.id, c.id); }
  }

  lemma OlderTotal(a: Entry, b: Entry)
    ensures Older(a, b) || Older(b, a)
  {
    AtMostTotal(a.id, b.id);
  }

  ghost predicate Sorted(s: seq<Entry>) {
    forall i, j :: 0 <= i < j < |s| ==> Older(s[i], s[j])
  }

  ghost predicate Distinct(entries: seq<Entry>) {
    forall i, j :: 0 <= i < j < |entries| ==> entries[i].id != entries[j].id
  }

  lemma InsertDistinct(s: seq<Entry>, e: Entry, k: nat)
    requires Distinct(s) && k <= |s| && forall x :: x in s ==> x.id != e.id
    ensures Distinct(s[..k] + [e] + s[k..])
  {
    var r := s[..k] + [e] + s[k..];
    forall i, j | 0 <= i < j < |r| ensures r[i].id != r[j].id {
      if i < k && j > k {
        assert s[i].id != s[j - 1].id;
      } else if i == k {
        assert s[j - 1] in s;
      } else if i > k {
        assert s[i - 1].id != s[j - 1].id;
      } else if j == k {
        assert s[i] in s;
      }
    }
  }

  lemma InsertSorted(s: seq<Entry>, e: Entry, k: nat)
    requires Sorted(s) && k <= |s| && (forall i :: 0 <= i < k ==> Older(s[i], e)) && (k < |s| ==> !Older(s[k], e))
    ensures Sorted(s[..k] + [e] + s[k..])
  {
    var r := s[..k] + [e] + s[k..];
    forall i, j | 0 <= i < j < |r| ensures Older(r[i], r[j]) {
      if i < k && j > k {
        assert Older(s[i], s[j - 1]);
      } else if i == k {
        OlderTotal(s[k], e);
        if j > k + 1 { OlderTransitive(e, s[k], s[j - 1]); }
      } else if i > k {
        assert Older(s[i - 1], s[j - 1]);
      }
    }
  }

  /** The decision for the entry at place `i` when the oldest `cut` places are to go. */
  predicate Goes(p: Policy, e: Entry, i: nat, cut: nat) {
    !e.shielded && (Expired(p, e) || i < cut)
  }

  function One(b: bool): nat { if b then 1 else 0 }

  /** How many of the entries stay. */
  function Kept(p: Policy, s: seq<Entry>, cut: nat): nat {
    if s == [] then 0 else Kept(p, s[..|s| - 1], cut) + One(!Goes(p, s[|s| - 1], |s| - 1, cut))
  }

  /** Moving the cut by one place costs at most the entry at that place. */
  lemma {:induction false} KeptStep(p: Policy, s: seq<Entry>, cut: nat)
    requires cut < |s|
    ensures Kept(p, s, cut) == Kept(p, s, cut + 1) + One(!s[cut].shielded && !Expired(p, s[cut]))
  {
    var n := |s| - 1;
    if cut < n {
      KeptStep(p, s[..n], cut);
    } else {
      KeptSame(p, s[..n], cut, cut + 1);
    }
  }

  lemma {:induction false} KeptSame(p: Policy, s: seq<Entry>, a: nat, b: nat)
    requires |s| <= a && |s| <= b
    ensures Kept(p, s, a) == Kept(p, s, b)
  {
    if s != [] { KeptSame(p, s[..|s| - 1], a, b); }
  }

  lemma {:induction false} KeptJoin(p: Policy, a: seq<Entry>, b: seq<Entry>)
    ensures Kept(p, a + b, 0) == Kept(p, a, 0) + Kept(p, b, 0)
    decreases |b|
  {
    if b == [] {
      assert a + b == a;
    } else {
      assert (a + b)[..|a + b| - 1] == a + b[..|b| - 1];
      KeptJoin(p, a, b[..|b| - 1]);
    }
  }

  lemma InsertKept(p: Policy, s: seq<Entry>, e: Entry, k: nat)
    requires k <= |s|
    ensures Kept(p, s[..k] + [e] + s[k..], 0) == Kept(p, s, 0) + One(!Expired(p, e))
  {
    assert s == s[..k] + s[k..] && [e][..0] == [];
    KeptJoin(p, s[..k], s[k..]);
    KeptJoin(p, s[..k], [e]);
    KeptJoin(p, s[..k] + [e], s[k..]);
  }

  method Insert(ghost p: Policy, s: seq<Entry>, e: Entry) returns (r: seq<Entry>)
    requires Sorted(s)
    ensures Sorted(r) && multiset(r) == multiset(s) + multiset{e}
    ensures Kept(p, r, 0) == Kept(p, s, 0) + One(!Expired(p, e))
    ensures Distinct(s) && (forall x :: x in s ==> x.id != e.id) ==> Distinct(r)
  {
    var k := 0;
    while k < |s| && Older(s[k], e)
      invariant k <= |s| && forall i :: 0 <= i < k ==> Older(s[i], e)
    {
      k := k + 1;
    }
    InsertSorted(s, e, k);
    InsertMembers(s, e, k);
    InsertKept(p, s, e, k);
    if Distinct(s) && (forall x :: x in s ==> x.id != e.id) { InsertDistinct(s, e, k); }
    r := s[..k] + [e] + s[k..];
  }

  lemma NewName(entries: seq<Entry>, i: nat, sorted: seq<Entry>)
    requires i < |entries| && Distinct(entries) && multiset(sorted) == multiset(entries[..i])
    ensures forall x :: x in sorted ==> x.id != entries[i].id
  {
    forall x | x in sorted ensures x.id != entries[i].id {
      assert x in multiset(entries[..i]);
      var k :| 0 <= k < i && entries[..i][k] == x;
      assert entries[k].id != entries[i].id;
    }
  }

  method Sort(ghost p: Policy, entries: seq<Entry>) returns (sorted: seq<Entry>)
    ensures Sorted(sorted) && multiset(sorted) == multiset(entries) && Kept(p, sorted, 0) == Kept(p, entries, 0)
    ensures Distinct(entries) ==> Distinct(sorted)
  {
    sorted := [];
    for i := 0 to |entries|
      invariant Sorted(sorted) && multiset(sorted) == multiset(entries[..i])
      invariant Kept(p, sorted, 0) == Kept(p, entries[..i], 0)
      invariant Distinct(entries) ==> Distinct(sorted)
    {
      if Distinct(entries) { NewName(entries, i, sorted); }
      sorted := Insert(p, sorted, entries[i]);
      assert entries[..i + 1] == entries[..i] + [entries[i]] && entries[..i + 1][..i] == entries[..i];
    }
    assert entries[..|entries|] == entries;
  }

  /** The cut is the least one that reaches the cap, or takes everything it may. */
  ghost predicate RightCut(p: Policy, s: seq<Entry>, cut: nat) {
    if p.maxSessions == 0 then cut == 0
    else
      && cut <= |s| && (Kept(p, s, cut) <= p.maxSessions || cut == |s|)
      && forall c :: 0 <= c < cut ==> Kept(p, s, c) > p.maxSessions
  }

  /** The selection of prune_stale_sessions over entries in collection order. */
  ghost predicate Selected(p: Policy, before: seq<Entry>, after: seq<Entry>, cut: nat) {
    && |after| == |before|
    && forall i :: 0 <= i < |before| ==> after[i] == before[i].(remove := Goes(p, before[i], i, cut))
  }

  /** Sessions past their time to live. */
  method MarkExpired(p: Policy, entries: seq<Entry>) returns (marked: seq<Entry>, selected: nat)
    requires forall i :: 0 <= i < |entries| ==> !entries[i].remove
    ensures |marked| == |entries| && forall i :: 0 <= i < |entries| ==> marked[i] == entries[i].(remove := Expired(p, entries[i]))
    ensures selected <= |entries| && |entries| - selected == Kept(p, entries, 0)
  {
    marked, selected := entries, 0;
    for i := 0 to |entries|
      invariant |marked| == |entries| && selected <= i && i - selected == Kept(p, entries[..i], 0)
      invariant forall j :: 0 <= j < i ==> marked[j] == entries[j].(remove := Expired(p, entries[j]))
      invariant forall j :: i <= j < |entries| ==> marked[j] == entries[j]
    {
      assert entries[..i + 1][..i] == entries[..i];
      var e := marked[i];
      if p.ttl != 0 && !e.shielded && e.lastUsed <= p.now {
        if p.now - e.lastUsed >= p.ttl {
          marked := marked[i := e.(remove := true)];
          selected := selected + 1;
        }
      }
    }
    assert entries[..|entries|] == entries;
  }

  /** The oldest unprotected sessions, until the cap is met. */
  method MarkOldest(p: Policy, marked: seq<Entry>, projected: nat)
    returns (r: seq<Entry>, ghost cut: nat)
    requires Selected(p, marked, marked, 0) && projected == Kept(p, marked, 0)
    ensures Selected(p, marked, r, cut) && RightCut(p, marked, cut)
  {
    r, cut := marked, 0;
    if p.maxSessions == 0 || projected <= p.maxSessions { return; }
    var left := projected;
    for i := 0 to |r|
      invariant cut == i && Selected(p, marked, r, i) && left == Kept(p, marked, i)
      invariant forall c :: 0 <= c < i ==> Kept(p, marked, c) > p.maxSessions
    {
      if left <= p.maxSessions { return; }
      KeptStep(p, marked, i);
      if !r[i].shielded && !r[i].remove {
        r := r[i := r[i].(remove := true)];
        left := left - 1;
      }
      cut := i + 1;
    }
  }

  lemma {:induction false} KeptIgnoresMarks(p: Policy, a: seq<Entry>, b: seq<Entry>, cut: nat)
    requires |a| == |b| && forall i :: 0 <= i < |a| ==> b[i] == a[i].(remove := b[i].remove)
    ensures Kept(p, a, cut) == Kept(p, b, cut)
    decreases |a|
  {
    if a != [] { KeptIgnoresMarks(p, a[..|a| - 1], b[..|b| - 1], cut); }
  }

  /** Expired sessions, then the oldest others while too many would stay. */
  method ChooseVictims(p: Policy, entries: seq<Entry>)
    returns (chosen: seq<Entry>, ghost order: seq<Entry>, ghost cut: nat)
    requires forall i :: 0 <= i < |entries| ==> !entries[i].remove
    ensures Sorted(order) && multiset(order) == multiset(Marked(p, entries))
    ensures Selected(p, order, chosen, cut) && RightCut(p, order, cut)
    ensures Distinct(entries) ==> Distinct(order)
  {
    var marked, selected := MarkExpired(p, entries);
    assert marked == Marked(p, entries);
    KeptIgnoresMarks(p, entries, marked, 0);
    var sorted := Sort(p, marked);
    order := sorted;
    MarksFollow(p, sorted, marked);
    chosen, cut := MarkOldest(p, sorted, |entries| - selected);
  }

  function Marked(p: Policy, s: seq<Entry>): seq<Entry> {
    seq(|s|, i requires 0 <= i < |s| => s[i].(remove := Expired(p, s[i])))
  }

  lemma MarksFollow(p: Policy, sorted: seq<Entry>, marked: seq<Entry>)
    requires multiset(sorted) == multiset(marked)
    requires forall i :: 0 <= i < |marked| ==> marked[i].remove == Expired(p, marked[i])
    ensures Selected(p, sorted, sorted, 0)
  {
    forall i | 0 <= i < |sorted| ensures sorted[i].remove == Expired(p, sorted[i]) {
      assert sorted[i] in multiset(marked);
    }
  }

  lemma {:induction false} KeptCounts(p: Policy, s: seq<Entry>, chosen: seq<Entry>, cut: nat)
    requires Selected(p, s, chosen, cut)
    ensures Kept(p, s, cut) == Staying(chosen)
    decreases |s|
  {
    if s != [] { KeptCounts(p, s[..|s| - 1], chosen[..|s| - 1], cut); }
  }

  function Staying(s: seq<Entry>): nat {
    if s == [] then 0 else Staying(s[..|s| - 1]) + One(!s[|s| - 1].remove)
  }

  /** Protected sessions stay, expired ones go, and without a cap only those go. */
  lemma Policies(p: Policy, order: seq<Entry>, chosen: seq<Entry>, cut: nat, e: Entry)
    requires Selected(p, order, chosen, cut) && RightCut(p, order, cut) && e in chosen
    ensures e.shielded ==> !e.remove
    ensures Expired(p, e) ==> e.remove
    ensures p.maxSessions == 0 && e.remove ==> Expired(p, e)
  {
    var i :| 0 <= i < |chosen| && chosen[i] == e;
    assert order[i] == e.(remove := order[i].remove);
  }

  /** The cap holds unless only protected sessions are left, and is never overshot. */
  lemma Capped(p: Policy, order: seq<Entry>, chosen: seq<Entry>, cut: nat, e: Entry)
    requires Selected(p, order, chosen, cut) && RightCut(p, order, cut) && e in chosen
    ensures p.maxSessions != 0 && !e.shielded && !e.remove ==> Staying(chosen) <= p.maxSessions
    ensures e.remove && !Expired(p, e) ==> Staying(chosen) >= p.maxSessions > 0
  {
    var i :| 0 <= i < |chosen| && chosen[i] == e;
    assert order[i] == e.(remove := order[i].remove);
    KeptCounts(p, order, chosen, cut);
    if e.remove && !Expired(p, e) {
      assert Kept(p, order, cut - 1) > p.maxSessions;
      KeptStep(p, order, cut - 1);
    }
  }

  /** Sessions that go for the cap are older than every unprotected one that stays. */
  lemma OldestFirst(p: Policy, order: seq<Entry>, chosen: seq<Entry>, cut: nat, e: Entry, k: Entry)
    requires Selected(p, order, chosen, cut) && RightCut(p, order, cut) && Sorted(order)
    requires e in chosen && k in chosen && e.remove && !Expired(p, e) && !k.remove && !k.shielded
    ensures Older(e, k)
  {
    var i :| 0 <= i < |chosen| && chosen[i] == e;
    var j :| 0 <= j < |chosen| && chosen[j] == k;
    assert order[i] == e.(remove := order[i].remove) && order[j] == k.(remove := order[j].remove);
  }
}
