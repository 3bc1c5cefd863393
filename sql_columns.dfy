/**
 * How the storage service's tables hold values the database has no type for: a
 * boolean parameter bound to an INTEGER column (`correntista` of `clients`, `ativo`
 * of `investments`) is stored as 1 or 0, and read back as "not 0".
 */
module SqlColumns {

  /** How a boolean parameter is stored in an INTEGER column. */
  function BoolColumn(b: bool): (v: int)
    ensures v == 0 || v == 1
    ensures v != 0 <==> b
  {
    if b then 1 else 0
  }
}
