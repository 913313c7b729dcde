/** The display of one probe result: the status label and the row tag that
    colours the row green or red. */
module Status {

  /** The two values a probe result writes into a row. */
  datatype StatusView = StatusView(status: string, tag: string)

  /** The label shown in the status column; a failed or erroring probe reads as inactive. */
  function StatusLabel(reachable: bool): (s: string)
    ensures s == "Actif" <==> reachable
    ensures s == "Actif" || s == "Inactif"
  {
    if reachable then "Actif" else "Inactif"
  }

  /** The style tag of a row, chosen from the label already computed. */
  function RowTag(status: string): (t: string)
    ensures t == "actif" <==> status == "Actif"
    ensures t == "actif" || t == "inactif"
  {
    if status == "Actif" then "actif" else "inactif"
  }

  /** One status update of a row: both the label and the tag follow the probe result. */
  function UpdateStatus(reachable: bool): (v: StatusView)
    ensures v.status == "Actif" <==> reachable
    ensures v.status == "Inactif" <==> !reachable
    ensures v.tag == "actif" <==> reachable
    ensures v.tag == "inactif" <==> !reachable
  {
    var status := StatusLabel(reachable);
    StatusView(status, RowTag(status))
  }
}
