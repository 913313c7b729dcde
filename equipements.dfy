/** The device records of IPAlerte and the pure operations on the device list:
    the field guard of the save button, the first-match lookup used to pick the
    record to edit, and the by-name filter used by delete. */
module Equipements {

  datatype Option<T> = None | Some(value: T)

  /** One entry of `data["equipements"]`: the keys Nom, IP, Date and refresh_rate. */
  datatype Equip = Equip(nom: string, ip: string, date: string, refreshRate: int)

  /** The guard of the save button, negated: a name, an address and a rate of at least one
      second. A string is falsy in the source exactly when it has no characters. */
  predicate ValidFields(name: string, ip: string, refreshRate: int)
    ensures ValidFields(name, ip, refreshRate) <==> |name| > 0 && |ip| > 0 && refreshRate > 0
  {
    name != "" && ip != "" && refreshRate >= 1
  }

  /** Every record of the list would pass the save guard. */
  predicate AllValid(list: seq<Equip>)
  {
    forall k :: 0 <= k < |list| ==> ValidFields(list[k].nom, list[k].ip, list[k].refreshRate)
  }

  /** The index of the first record called `name`, as `next(e for e in ... if e["Nom"] == name)`
      picks it; None where `next` would raise StopIteration. */
  function FindFirst(list: seq<Equip>, name: string): (r: Option<nat>)
    ensures r.Some? ==> r.value < |list| && list[r.value].nom == name
    ensures r.Some? ==> forall j :: 0 <= j < r.value ==> list[j].nom != name
    ensures r.None? <==> forall j :: 0 <= j < |list| ==> list[j].nom != name
  {
    if |list| == 0 then None
    else if list[0].nom == name then Some(0)
    else match FindFirst(list[1..], name)
      case None => None
      case Some(i) => Some(i + 1)
  }

  /** The list comprehension of delete: every record not called `name`, in order. */
  function Without(list: seq<Equip>, name: string): (r: seq<Equip>)
    ensures |r| <= |list|
    ensures forall k :: 0 <= k < |r| ==> r[k].nom != name && r[k] in list
  {
    if |list| == 0 then []
    else if list[0].nom == name then Without(list[1..], name)
    else [list[0]] + Without(list[1..], name)
  }

  /** Delete removes every record with the name and keeps every other record as many
      times as it occurs. */
  lemma {:induction false} WithoutCounts(list: seq<Equip>, name: string)
    ensures forall e :: multiset(Without(list, name))[e] == if e.nom == name then 0 else multiset(list)[e]
  {
    if |list| > 0 {
      WithoutCounts(list[1..], name);
      assert list == [list[0]] + list[1..];
    }
  }

  /** Filtering distributes over concatenation: together with the one-record case this
      says that the kept records appear in their original relative order. */
  lemma {:induction false} WithoutConcat(a: seq<Equip>, b: seq<Equip>, name: string)
    ensures Without(a + b, name) == Without(a, name) + Without(b, name)
  {
    if |a| == 0 {
      assert a + b == b;
    } else {
      assert (a + b)[1..] == a[1..] + b;
      WithoutConcat(a[1..], b, name);
    }
  }

  /** Where no record is called `name`, delete keeps the list as it is. */
  lemma {:induction false} WithoutNoMatch(list: seq<Equip>, name: string)
    requires forall k :: 0 <= k < |list| ==> list[k].nom != name
    ensures Without(list, name) == list
  {
    if |list| > 0 {
      assert list[0].nom != name;
      WithoutNoMatch(list[1..], name);
      assert list == [list[0]] + list[1..];
    }
  }

  /** Deleting the same name a second time changes nothing. */
  lemma {:induction false} WithoutIdempotent(list: seq<Equip>, name: string)
    ensures Without(Without(list, name), name) == Without(list, name)
  {
    WithoutNoMatch(Without(list, name), name);
  }

  /** Deleting a record in front of a list: the one-record case of the filter. */
  lemma WithoutCons(e: Equip, list: seq<Equip>, name: string)
    ensures Without([e] + list, name) == if e.nom == name then Without(list, name) else [e] + Without(list, name)
  {
  }

  /** Deleting two names in either order gives the same list. */
  lemma {:induction false} WithoutCommutes(list: seq<Equip>, a: string, b: string)
    ensures Without(Without(list, a), b) == Without(Without(list, b), a)
  {
    if |list| > 0 {
      var e, tail := list[0], list[1..];
      assert list == [e] + tail;
      WithoutCommutes(tail, a, b);
      WithoutCons(e, tail, a);
      WithoutCons(e, tail, b);
      WithoutCons(e, Without(tail, a), b);
      WithoutCons(e, Without(tail, b), a);
    }
  }

  /** Adding a device under a fresh name and then deleting that name restores the list. */
  lemma {:induction false} AddThenDeleteRestores(list: seq<Equip>, e: Equip)
    requires FindFirst(list, e.nom).None?
    ensures Without(list + [e], e.nom) == list
  {
    WithoutConcat(list, [e], e.nom);
    WithoutNoMatch(list, e.nom);
    assert Without([e], e.nom) == [];
  }
}
