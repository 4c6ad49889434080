/**
 * A drama record of the metadata corpus: a dictionary from column name to the column's text.
 * Columns come in two spellings in the data (`Genre`/`genres`, `Cast`/`cast`, ...), and the code
 * reads them with nested `dict.get` calls.
 */
module Records {
  import opened Wrappers
  import opened PyStr

  type Record = map<string, string>

  /** `r.get(k, default)` */
  function Get(r: Record, k: string, default: string): (v: string)
    ensures k in r ==> v == r[k]
    ensures k !in r ==> v == default
  {
    if k in r then r[k] else default
  }

  /** `r.get(k1, r.get(k2, default))`: the first spelling wins whenever it is present, even empty. */
  function Get2(r: Record, k1: string, k2: string, default: string): (v: string)
    ensures k1 in r ==> v == r[k1]
    ensures k1 !in r && k2 in r ==> v == r[k2]
    ensures k1 !in r && k2 !in r ==> v == default
  {
    Get(r, k1, Get(r, k2, default))
  }

  /** `r.get(k1, r.get(k2))`, which is `None` when neither spelling is present. */
  function Lookup2(r: Record, k1: string, k2: string): (v: Option<string>)
    ensures v.None? <==> k1 !in r && k2 !in r
  {
    if k1 in r then Some(r[k1]) else if k2 in r then Some(r[k2]) else None
  }

  /** `f"{Title} {Genre} {Description} {Cast}"`, the text a drama is searched and reranked by. */
  function Document(r: Record): string
  {
    Get(r, "Title", "") + " " + Get(r, "Genre", "") + " " + Get(r, "Description", "") + " " + Get(r, "Cast", "")
  }
}
