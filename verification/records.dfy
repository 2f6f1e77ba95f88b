/** The stored article as the storage API returns it (the fillable fields of the
    Laravel `Article` model plus its id), shared by the enrichment worker and the
    list view. */
module Records {
  import opened Responses

  /** A JSON scalar as the API may deliver it for `is_updated`. The model casts it
      to a boolean, but both readers compare the raw value, so every JSON scalar is
      kept apart. Numbers are restricted to integers. */
  datatype Flag = Bool(b: bool) | Number(n: int) | Text(s: string) | Null | Absent

  /** JavaScript truthiness of a flag: `false`, `0`, `""`, `null` and `undefined`
      are falsy, everything else truthy. */
  predicate Truthy(f: Flag)
    ensures !Truthy(f) <==> f in {Bool(false), Number(0), Text(""), Null, Absent}
  {
    match f
    case Bool(b) => b
    case Number(n) => n != 0
    case Text(s) => s != ""
    case Null => false
    case Absent => false
  }

  /** `content` is None when the field is `null` or missing. */
  datatype Article = Article(
    id: int,
    title: string,
    content: Option<string>,
    originalUrl: string,
    sourceCitations: seq<string>,
    isUpdated: Flag)
}
