# IPAlerte device-list store, modelled in Dafny

IPAlerte is a small tkinter application that lists network devices
("équipements"), pings each one periodically and colours its row green
("actif") or red ("inactif"). Its state is the list `data["equipements"]` of
records `{Nom, IP, Date, refresh_rate}`, read from and written back to
`equipements.json`. This project models that list and the three menu callbacks
that change it:

- **add** — the save button of the add window validates the three fields and
  appends a new record dated with the current time;
- **edit** — the edit menu entry picks the first record whose name equals the
  selected row's name, and the save button of the edit window overwrites its
  name, address and rate, keeping its date;
- **delete** — after a confirmation prompt, every record whose name equals the
  selected row's name is removed, the others keep their order.

Each successful change writes the whole list to the file (`save_data`); a
rejected one writes nothing. The model also covers the mapping from a ping
result to the status label and row tag.

Files:

- `equipements.dfy` (module `Equipements`): the record datatype, the field
  guard, the first-match lookup `FindFirst`, the by-name filter `Without`, and
  lemmas about them.
- `store.dfy` (module `Store`): class `EquipementStore` with the live list
  `equipements` and the last written copy `saved`, the methods `Add`, `Edit`,
  `Delete` and `SaveData`, and a client method for the add-then-delete round
  trip.
- `status.dfy` (module `Status`): the probe-to-label and label-to-tag mapping.

The widget text, the selected row, the confirmation answer, the clock and the
ping outcome are method or function inputs: the entry texts become `name`,
`ip` and `refreshRate`; the selection becomes `Option<string>`, which is the
name in the first selected row or `None` when nothing is selected; the answer
to the prompt becomes `confirm`; the timestamp becomes `now`; the ping result
becomes `reachable`.

## Model

| member | source | states |
|---|---|---|
| `Equipements.ValidFields` | index.py:74 | true exactly when the name and the address each have at least one character and the rate is at least 1, so the guard rejects an empty name, an empty address or a rate below 1 |
| `Equipements.FindFirst` | index.py:164-165 | the index returned is in range and holds a record with the selected name, and no earlier record has that name; `None` exactly when no record has it (where `next` raises StopIteration) |
| `Equipements.Without` | index.py:121 | no kept record has the deleted name, every kept record is one of the old list, and the list never grows |
| `Equipements.WithoutCounts` | index.py:121 | records with the deleted name occur zero times afterwards; every other record occurs exactly as often as before |
| `Equipements.WithoutConcat` | index.py:121 | filtering a concatenation is the concatenation of the filtered parts, so kept records stay in their original relative order |
| `Equipements.WithoutNoMatch` | index.py:121 | when no record has the name, delete leaves the list exactly as it was |
| `Equipements.WithoutIdempotent` | index.py:121 | deleting the same name a second time changes nothing |
| `Equipements.WithoutCommutes` | index.py:121 | deleting two names in either order yields the same list |
| `Equipements.AddThenDeleteRestores` | index.py:82-121 | appending a record whose name no record has and then deleting that name gives back the original list |
| `Store.EquipementStore.constructor` | index.py:171 | the store starts with the loaded list as both the live list and the saved copy |
| `Store.EquipementStore.SaveData` | index.py:22-24 | the saved copy becomes the live list; the live list is unchanged |
| `Store.EquipementStore.Add` | index.py:69-84 | an empty name, an empty address or a rate below 1 is rejected with list and saved copy unchanged; otherwise exactly one record with the given name, address, rate and date is appended after the unchanged earlier records, duplicates included, and the saved copy equals the new list; valid lists stay valid |
| `Store.EquipementStore.Edit` | index.py:69-84 | with the record located as in edit_equipement (index.py lines 157-166): no selection, a selected name no record has, or invalid fields are rejected in that order with nothing changed or saved; otherwise only the first record with the selected name gets the new name, address and rate, its date, every other record and the length unchanged, and the saved copy equals the new list; valid lists stay valid |
| `Store.EquipementStore.Delete` | index.py:110-123 | no selection or a declined prompt changes and saves nothing; otherwise the list becomes the filter of the old list by the selected name and the saved copy equals it, whether or not anything was removed; valid lists stay valid |
| `Store.AddThenDelete` | index.py:78-122 | adding a device under a fresh name and then deleting that name leaves the live list as it was, and the saved copy equals it when the add was accepted |
| `Status.StatusLabel` | index.py:39 | the label is "Actif" exactly when the probe succeeded and "Inactif" otherwise |
| `Status.RowTag` | index.py:43 | the tag is "actif" exactly when the label is "Actif" and "inactif" otherwise |
| `Status.UpdateStatus` | index.py:38-43 | in one status update, both the label and the tag are the active ones exactly when the probe succeeded |

## Left out

- The tkinter window, table, menus, entry widgets, message boxes and the table refresh (`refresh_treeview`): these are presentation. Their values reach the model as inputs, and the error dialogs become the `Rejected` reasons.
- The daemon thread per device and its endless ping-and-sleep loop (`threaded_update_status`): this is concurrency with no cancellation, not sequential logic. The thread restart caused by each table refresh is left out with it.
- `check_ping`'s subprocess call and its OS-specific command: this is a foreign process. Its result, including the `False` given for any exception, is the `reachable` input.
- Reading and writing the JSON file and the fallback to an empty list when the file is missing or corrupt (`load_data`, `save_data`): this is file I/O. Saving is modelled as copying the live list into `saved`, and start-up takes the loaded list as an input. A write that fails is not modelled: in the source the list is already changed (lines 79, 82 and 121) when `save_data` raises, so the live list and the file then disagree, and a retried add would append the record twice; the model's saves always succeed. Nor is a start-up from a missing or corrupt file, after which the file does not hold the loaded (empty) list although the constructor sets `saved` to it.
- Formatting the timestamps and the "time since last ping" value: both depend on the clock and on floats. The source computes that value as the sub-second part of the clock, from 0 up to about 1 s, because line 40 drops the microseconds before line 41 subtracts the result from the current time. `Date` is an opaque string input.
- The `int()` parse of the rate text: the rate is an `int` input. A text that is not an integer makes the source raise before the guard, so, as with a rejected input, nothing is changed or saved.
- Store.EquipementStore.Edit: the source looks the record up when the edit window opens and writes to that dictionary object when its save button is pressed. The model does both in one call, using the record's index. It does not capture another add or delete that runs while an edit window is open. For example, an edit saved after its record was deleted changes no listed record, yet still saves the list.
- The conversion the table might apply to the selected row's text before it is compared with `Nom`: the model compares the stored name itself.
