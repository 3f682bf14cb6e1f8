/** JSON columns that are stored and returned as they are. */
module Documents {
  import opened Optional

  datatype Json = Json(text: string)

  const EMPTY: Json := Json("{}")

  /** A new value if one is given, else the old one. */
  function Or<T>(value: Option<T>, base: T): T {
    if value.Some? then value.value else base
  }
}
