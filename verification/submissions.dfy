/**
 * Submitted applications as the submissions endpoint returns them: flat
 * records of named cells, in the order `Object.entries` lists them. Both
 * the dashboard and the applications list read cells by name and colour
 * the "Status" cell the same way.
 */
module Submissions {
  import opened Values

  /** One submitted record: its cells in property order. */
  type Record = seq<(string, Value)>

  /** `record[key]`: the cell named `key`, or undefined when there is none. */
  function Get(record: Record, key: string): (v: Value)
    ensures (forall i :: 0 <= i < |record| ==> record[i].0 != key) ==> v == Undef
    ensures forall i :: (0 <= i < |record| && record[i].0 == key &&
                         (forall i' :: 0 <= i' < i ==> record[i'].0 != key)) ==> v == record[i].1
  {
    if record == [] then Undef
    else if record[0].0 == key then record[0].1
    else Get(record[1..], key)
  }

  /** The three badge variants a status is shown with. */
  datatype Variant = Success | Warning | Destructive

  /** "Approved" is a success, "Pending" a warning, anything else, absent included, destructive. */
  function BadgeVariant(status: Value): (r: Variant)
    ensures r == Success <==> status == Str("Approved")
    ensures r == Warning <==> status == Str("Pending")
    ensures r == Destructive <==> status != Str("Approved") && status != Str("Pending")
  {
    if status == Str("Approved") then Success
    else if status == Str("Pending") then Warning
    else Destructive
  }
}
