/** The device list of IPAlerte as the menu callbacks change it: the live list
    `data["equipements"]` and the copy last written to equipements.json. */
module Store {

  import opened Equipements

  /** Why a callback stopped before changing anything. */
  datatype Reason = InvalidFields | NoSelection | NoMatch | Declined

  /** Saved: the list was changed and written out; Rejected: nothing changed, nothing written. */
  datatype Outcome = Saved | Rejected(reason: Reason)

  class EquipementStore {
    /** The live list shown in the table. */
    var equipements: seq<Equip>
    /** The list as last written by save_data. */
    var saved: seq<Equip>

    /** The file holds what the table shows. */
    ghost predicate Synced()
      reads this
    {
      saved == equipements
    }

    /** Start-up with the list read from the file. */
    constructor (loaded: seq<Equip>)
      ensures equipements == loaded && saved == loaded
      ensures Synced()
    {
      equipements := loaded;
      saved := loaded;
    }

    /** save_data: write the whole list to the file. */
    method SaveData()
      modifies this
      ensures equipements == old(equipements) && saved == equipements
    {
      saved := equipements;
    }

    /** The save button of the add window: validate, append a record dated `now`, save.
        Names are not checked for uniqueness. */
    method Add(name: string, ip: string, refreshRate: int, now: string) returns (outcome: Outcome)
      modifies this
      ensures outcome == if ValidFields(name, ip, refreshRate) then Saved else Rejected(InvalidFields)
      ensures outcome.Saved? ==>
        equipements == old(equipements) + [Equip(name, ip, now, refreshRate)] && Synced()
      ensures outcome.Rejected? ==> equipements == old(equipements) && saved == old(saved)
      ensures AllValid(old(equipements)) ==> AllValid(equipements)
    {
      if !ValidFields(name, ip, refreshRate) {
        return Rejected(InvalidFields);
      }
      equipements := equipements + [Equip(name, ip, now, refreshRate)];
      SaveData();
      outcome := Saved;
    }

    /** The edit menu entry followed by the save button of the edit window: the record
        edited is the first one named like the selected row; its name, address and rate
        are overwritten, its date is kept, and the list is saved. */
    method Edit(selected: Option<string>, name: string, ip: string, refreshRate: int)
      returns (outcome: Outcome)
      modifies this
      ensures selected.None? ==> outcome == Rejected(NoSelection)
      ensures selected.Some? && FindFirst(old(equipements), selected.value).None? ==>
        outcome == Rejected(NoMatch)
      ensures selected.Some? && FindFirst(old(equipements), selected.value).Some? ==>
        outcome == if ValidFields(name, ip, refreshRate) then Saved else Rejected(InvalidFields)
      ensures outcome.Saved? ==>
        selected.Some? && FindFirst(old(equipements), selected.value).Some? &&
        var i := FindFirst(old(equipements), selected.value).value;
        |equipements| == |old(equipements)| &&
        equipements[i] == Equip(name, ip, old(equipements)[i].date, refreshRate) &&
        (forall j :: 0 <= j < |equipements| && j != i ==> equipements[j] == old(equipements)[j]) &&
        Synced()
      ensures outcome.Rejected? ==> equipements == old(equipements) && saved == old(saved)
      ensures AllValid(old(equipements)) ==> AllValid(equipements)
    {
      if selected.None? {
        return Rejected(NoSelection);
      }
      var found := FindFirst(equipements, selected.value);
      if found.None? {
        return Rejected(NoMatch);
      }
      if !ValidFields(name, ip, refreshRate) {
        return Rejected(InvalidFields);
      }
      var i := found.value;
      equipements := equipements[i := Equip(name, ip, equipements[i].date, refreshRate)];
      SaveData();
      outcome := Saved;
    }

    /** The delete menu entry: with a selected row and a confirmed prompt, keep only the
        records not named like the row, then save, even when no record was removed. */
    method Delete(selected: Option<string>, confirm: bool) returns (outcome: Outcome)
      modifies this
      ensures outcome == if selected.None? then Rejected(NoSelection)
                         else if !confirm then Rejected(Declined)
                         else Saved
      ensures outcome.Saved? ==>
        selected.Some? && equipements == Without(old(equipements), selected.value) && Synced()
      ensures outcome.Rejected? ==> equipements == old(equipements) && saved == old(saved)
      ensures AllValid(old(equipements)) ==> AllValid(equipements)
    {
      if selected.None? {
        return Rejected(NoSelection);
      }
      if !confirm {
        return Rejected(Declined);
      }
      equipements := Without(equipements, selected.value);
      SaveData();
      outcome := Saved;
    }
  }

  /** Adding a device under a name no record has, then deleting that name with the
      prompt confirmed, gives back the list it started from, and the file holds it. */
  method AddThenDelete(store: EquipementStore, name: string, ip: string, refreshRate: int, now: string)
    requires FindFirst(store.equipements, name).None?
    modifies store
    ensures store.equipements == old(store.equipements)
    ensures ValidFields(name, ip, refreshRate) ==> store.Synced()
    ensures !ValidFields(name, ip, refreshRate) ==> store.saved == old(store.saved)
  {
    var added := store.Add(name, ip, refreshRate, now);
    if added.Saved? {
      AddThenDeleteRestores(old(store.equipements), Equip(name, ip, now, refreshRate));
      var deleted := store.Delete(Some(name), true);
    }
  }
}
