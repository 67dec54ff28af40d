/** JSON values, as exchanged between the backend and the browser. */
module Json {

  /** Property names. The code mentions the listed ones; `Other` is any name that is not
      listed here. */
  datatype Field =
    | CpuPct | MemPct | TempC
    | NvmeReadBytesPerS | NvmeWriteBytesPerS | SdReadBytesPerS | SdWriteBytesPerS
    | NetRxBytesPerS | NetTxBytesPerS
    | CpuCores | MemBytes
    | Node | Key | Name | T | Ok | Ms | Detail | Config | UptimePct | Type | Phase
    | Other(name: string)

  datatype Val =
    | Null
    | Bool(b: bool)
    | Num(n: real)
    | Str(s: string)
    | List(items: seq<Val>)
    | Dict(fields: map<Field, Val>)

  /** A Python dict or a JavaScript object. */
  type Record = map<Field, Val>

  /** `d.get(f)` in Python, `d.f` in JavaScript; undefined and null are not told apart. */
  function Get(d: Record, f: Field): Val {
    if f in d then d[f] else Null
  }

  /** Python's `{f: v, **d}`: an `f` in `d` wins. */
  function WithDefault(f: Field, v: Val, d: Record): Record {
    if f in d then d else d[f := v]
  }

  /** JavaScript's `a ?? b`. */
  function Coalesce(a: Val, b: Val): Val {
    if a.Null? then b else a
  }

  /** The property name that JavaScript uses for a value in `{ [v]: ... }`;
      the server only ever sends strings there. */
  function PropertyName(v: Val): string {
    match v
    case Str(s) => s
    case _ => "undefined"
  }
}
