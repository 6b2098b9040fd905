/**
 * The catalogue entries the user maintains: vital signs and medicines. Both carry an
 * optional numeric id (absent before the backend assigns one), a name and the owning user's
 * id as the backend sends it (`Undefined` when the payload leaves it out).
 */
module Catalog {
  import opened Js
  import opened Wrappers

  datatype VitalSign = VitalSign(id: Option<int>, name: string, userId: JsValue)

  datatype Medicine = Medicine(id: Option<int>, name: string, userId: JsValue)

  /** `id.toString()`, the row key of a numeric id. */
  function RowKey(id: int): string {
    IntToString(id)
  }

  /** Distinct ids have distinct row keys. */
  lemma RowKeyInjective(a: int, b: int)
    ensures RowKey(a) == RowKey(b) <==> a == b
  {
    if RowKey(a) == RowKey(b) {
      IntToStringInjective(a, b);
    }
  }
}
