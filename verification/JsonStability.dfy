/** Every value the parser produces is one the serializer writes faithfully, so a second pass changes nothing. */
module JsonStability {
  import opened Json
  import opened JsonNumbers
  import opened JsonText

  /** Every double the library reads has a text that reads back as it. */
  ghost predicate Faithful(lib: Library, show: Show) {
    forall s :: lib(s).Some? ==> Spells(lib, show(lib(s).value), lib(s).value)
  }

  /** Faithfully written, and nested no deeper than `left` levels. */
  ghost predicate Good(lib: Library, show: Show, left: int, v: Json) {
    Printable(lib, show, v) && Height(v) <= left
  }

  ghost predicate AllGood(lib: Library, show: Show, left: int, items: seq<Json>) {
    forall i :: 0 <= i < |items| ==> Good(lib, show, left, items[i])
  }

  ghost predicate MembersGood(lib: Library, show: Show, left: int, members: Members) {
    Distinct(members) && forall i :: 0 <= i < |members| ==> Good(lib, show, left, members[i].1)
  }

  lemma {:induction false} ItemsGood(lib: Library, show: Show, left: int, items: seq<Json>)
    requires AllGood(lib, show, left, items)
    ensures ItemsPrintable(lib, show, items) && (items != [] ==> ItemsHeight(items) <= left)
    decreases |items|
  {
    if items != [] {
      assert Good(lib, show, left, items[0]);
      ItemsGood(lib, show, left, items[1..]);
    }
  }

  lemma {:induction false} MembersValuesGood(lib: Library, show: Show, left: int, members: Members)
    requires forall i :: 0 <= i < |members| ==> Good(lib, show, left, members[i].1)
    ensures MembersPrintable(lib, show, members) && (members != [] ==> MembersHeight(members) <= left)
    decreases |members|
  {
    if members != [] {
      assert Good(lib, show, left, members[0].1);
      MembersValuesGood(lib, show, left, members[1..]);
    }
  }

  lemma ArrayGood(lib: Library, show: Show, left: int, items: seq<Json>)
    requires AllGood(lib, show, left - 1, items) && left >= 0
    ensures Good(lib, show, left, Arr(items))
  {
    ItemsGood(lib, show, left - 1, items);
  }

  lemma ObjectGood(lib: Library, show: Show, left: int, members: Members)
    requires MembersGood(lib, show, left - 1, members) && left >= 0
    ensures Good(lib, show, left, Obj(members))
  {
    MembersValuesGood(lib, show, left - 1, members);
    NewNamesMeans({}, members);
  }

  lemma SetGood(lib: Library, show: Show, left: int, members: Members, key: string, v: Json)
    requires MembersGood(lib, show, left, members) && Good(lib, show, left, v)
    ensures MembersGood(lib, show, left, SetMember(members, key, v))
  {
    SetMemberKeys(members, key, v);
  }

  lemma ScalarGood(lib: Library, show: Show, t: string, p: nat, left: int)
    requires Faithful(lib, show) && left >= 0 && p < |t| && ReadScalar(lib, t, p).Some?
    ensures Good(lib, show, left, ReadScalar(lib, t, p).value.0)
  {
  }

  lemma {:induction false} ReadValueGood(lib: Library, show: Show, t: string, p: nat, left: int)
    requires Faithful(lib, show) && p <= |t| && ReadValue(lib, t, p, left).Some?
    ensures Good(lib, show, left, ReadValue(lib, t, p, left).value.0)
    decreases |t| - p, 2
  {
    var q := Space(t, p);
    if t[q] == '{' {
      ReadObjectGood(lib, show, t, q + 1, left);
    } else if t[q] == '[' {
      ReadArrayGood(lib, show, t, q + 1, left);
    } else {
      ScalarGood(lib, show, t, q, left);
    }
  }

  lemma {:induction false} ReadArrayGood(lib: Library, show: Show, t: string, p: nat, left: int)
    requires Faithful(lib, show) && p <= |t| && left >= 0 && ReadArray(lib, t, p, left).Some?
    ensures Good(lib, show, left, ReadArray(lib, t, p, left).value.0)
    decreases |t| - p, 5
  {
    var q := Space(t, p);
    if !Holds(t, q, ']') {
      ReadItemsGood(lib, show, t, q, left - 1, []);
      ArrayGood(lib, show, left, ReadItems(lib, t, q, left - 1, []).value.0);
    }
  }

  lemma {:induction false} ReadObjectGood(lib: Library, show: Show, t: string, p: nat, left: int)
    requires Faithful(lib, show) && p <= |t| && left >= 0 && ReadObject(lib, t, p, left).Some?
    ensures Good(lib, show, left, ReadObject(lib, t, p, left).value.0)
    decreases |t| - p, 5
  {
    var q := Space(t, p);
    if !Holds(t, q, '}') {
      ReadMembersGood(lib, show, t, q, left - 1, []);
      ObjectGood(lib, show, left, ReadMembers(lib, t, q, left - 1, []).value.0);
    }
  }

  lemma {:induction false} ReadItemsGood(lib: Library, show: Show, t: string, p: nat, left: int, sofar: seq<Json>)
    requires Faithful(lib, show) && p <= |t| && AllGood(lib, show, left, sofar) && ReadItems(lib, t, p, left, sofar).Some?
    ensures AllGood(lib, show, left, ReadItems(lib, t, p, left, sofar).value.0)
    decreases |t| - p, 4
  {
    ReadValueGood(lib, show, t, p, left);
    var (v, q) := ReadItem(lib, t, p, left).value;
    var r := Space(t, q);
    if Holds(t, r, ',') { ReadItemsGood(lib, show, t, r + 1, left, sofar + [v]); }
  }

  lemma {:induction false} ReadMembersGood(lib: Library, show: Show, t: string, p: nat, left: int, sofar: Members)
    requires Faithful(lib, show) && p <= |t| && MembersGood(lib, show, left, sofar) && ReadMembers(lib, t, p, left, sofar).Some?
    ensures MembersGood(lib, show, left, ReadMembers(lib, t, p, left, sofar).value.0)
    decreases |t| - p, 4
  {
    var (m, q) := ReadMember(lib, t, p, left).value;
    ReadValueGood(lib, show, t, ReadKey(t, p).value.1, left);
    SetGood(lib, show, left, sofar, m.0, m.1);
    var r := Space(t, q);
    if Holds(t, r, ',') { ReadMembersGood(lib, show, t, r + 1, left, SetMember(sofar, m.0, m.1)); }
  }

  /** Whatever text a value came from, writing it and reading it again gives the same value. */
  lemma Stable(lib: Library, show: Show, t: string)
    requires Faithful(lib, show) && Parse(lib, t).Some?
    ensures Parse(lib, Text(show, Parse(lib, t).value)) == Parse(lib, t)
  {
    ReadValueGood(lib, show, t, 0, MAX_DEPTH);
    ParseOfText(lib, show, Parse(lib, t).value);
  }

  /** The parser never builds an object with two members of one name. */
  lemma {:induction false} PrintableWf(lib: Library, show: Show, v: Json)
    requires Printable(lib, show, v)
    ensures Wf(v)
  {
    match v
    case Arr(items) =>
      forall i | 0 <= i < |items| ensures Wf(items[i]) {
        ItemPrintableAt(lib, show, items, i);
        PrintableWf(lib, show, items[i]);
      }
    case Obj(members) =>
      NewNamesMeans({}, members);
      forall i | 0 <= i < |members| ensures Wf(members[i].1) {
        MemberPrintableAt(lib, show, members, i);
        PrintableWf(lib, show, members[i].1);
      }
    case _ =>
  }

  lemma {:induction false} ItemPrintableAt(lib: Library, show: Show, items: seq<Json>, i: nat)
    requires ItemsPrintable(lib, show, items) && i < |items|
    ensures Printable(lib, show, items[i])
    decreases i
  {
    if i > 0 { ItemPrintableAt(lib, show, items[1..], i - 1); }
  }

  lemma {:induction false} MemberPrintableAt(lib: Library, show: Show, members: Members, i: nat)
    requires MembersPrintable(lib, show, members) && i < |members|
    ensures Printable(lib, show, members[i].1)
    decreases i
  {
    if i > 0 { MemberPrintableAt(lib, show, members[1..], i - 1); }
  }
}
