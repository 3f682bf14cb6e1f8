/** Stored provider credentials: shown with secrets masked and server-managed fields dropped,
    and saved again with masked secrets and server-managed fields restored
    (`api/routes/organization.py:103-133,553-624`, `api/services/configuration/masking.py:54-80`). */
module Credentials {
  import opened Optional

  datatype Json =
    | JNull
    | JBool(b: bool)
    | JNumber(n: real)
    | JText(s: string)
    | JList(items: seq<Json>)
    | JDict(d: Fields)

  type Fields = map<string, Json>

  type Path = p: seq<string> | p != [] witness [""]

  /** `str.split(".")`. */
  function Split(name: string): (r: Path) {
    if name == "" then [""]
    else
      var rest := Split(name[1..]);
      if name[0] == '.' then [""] + rest else [[name[0]] + rest[0]] + rest[1..]
  }

  function IsTrue(v: Json): bool {
    match v
    case JNull => false
    case JBool(b) => b
    case JNumber(n) => n != 0.0
    case JText(s) => s != ""
    case JList(items) => items != []
    case JDict(d) => d != map[]
  }

  // ------------------------------------------------------------------ nested fields

  /** `_get_nested_field`: absent fields, and fields of what is no dictionary, read as null. */
  function Get(v: Json, path: seq<string>): Json {
    if path == [] then v
    else if !v.JDict? || path[0] !in v.d then JNull
    else Get(v.d[path[0]], path[1..])
  }

  /** `_set_nested_field`: what is no dictionary on the way is replaced by one. */
  function Set(d: Fields, path: Path, x: Json): Fields
    decreases |path|
  {
    var k := path[0];
    if |path| == 1 then d[k := x]
    else d[k := JDict(Set(Child(d, k), path[1..], x))]
  }

  function Child(d: Fields, k: string): Fields {
    if k in d && d[k].JDict? then d[k].d else map[]
  }

  method GetNestedField(value: Fields, parts: Path) returns (r: Json)
    ensures r == Get(JDict(value), parts)
  {
    r := JDict(value);
    for i := 0 to |parts|
      invariant Get(r, parts[i..]) == Get(JDict(value), parts)
    {
      if !r.JDict? {
        return JNull;
      }
      if parts[i] !in r.d {
        NothingBelowNull(parts[i + 1..]);
      }
      r := if parts[i] in r.d then r.d[parts[i]] else JNull;
    }
  }

  lemma NothingBelowNull(path: seq<string>)
    ensures Get(JNull, path) == JNull
  {
  }

  /** Lens laws. A path that was set reads back as what was set. */
  lemma {:induction false} GetAfterSet(d: Fields, path: Path, x: Json)
    ensures Get(JDict(Set(d, path, x)), path) == x
    decreases |path|
  {
    if |path| == 1 {
    } else {
      GetAfterSet(Child(d, path[0]), path[1..], x);
    }
  }

  /** Setting twice is setting once. */
  lemma {:induction false} SetAfterSet(d: Fields, path: Path, x: Json, y: Json)
    ensures Set(Set(d, path, x), path, y) == Set(d, path, y)
    decreases |path|
  {
    if |path| == 1 {
    } else {
      SetAfterSet(Child(d, path[0]), path[1..], x, y);
      OverwriteTwice(d, path[0], Set(Child(d, path[0]), path[1..], x), JDict(Set(Child(d, path[0]), path[1..], y)));
    }
  }

  lemma OverwriteTwice(d: Fields, k: string, first: Fields, second: Json)
    ensures Child(d[k := JDict(first)], k) == first
    ensures d[k := JDict(first)][k := second] == d[k := second]
  {
  }

  /** Setting what is there changes nothing. */
  lemma {:induction false} SetWhatIsThere(d: Fields, path: Path)
    requires Get(JDict(d), path) != JNull
    ensures Set(d, path, Get(JDict(d), path)) == d
    decreases |path|
  {
    if |path| == 1 {
    } else {
      SetWhatIsThere(d[path[0]].d, path[1..]);
    }
  }

  predicate Independent(p: seq<string>, q: seq<string>) {
    !(p <= q) && !(q <= p)
  }

  /** Setting one path does not touch another, unless one is a prefix of the other. */
  lemma {:induction false} GetElsewhere(d: Fields, path: Path, x: Json, other: seq<string>)
    requires Independent(path, other)
    ensures Get(JDict(Set(d, path, x)), other) == Get(JDict(d), other)
    decreases |path|
  {
    if |path| == 1 || other[0] != path[0] {
    } else {
      assert path == [path[0]] + path[1..] && other == [other[0]] + other[1..];
      GetElsewhere(Child(d, path[0]), path[1..], x, other[1..]);
      if !(path[0] in d && d[path[0]].JDict?) {
        assert Get(JDict(map[]), other[1..]) == JNull by {
          assert other[1..] != [];
        }
      }
    }
  }

  // ----------------------------------------------------------------------- masking

  const VISIBLE: nat := 4

  function Stars(n: nat): (r: string)
    ensures |r| == n && forall i :: 0 <= i < n ==> r[i] == '*'
  {
    seq(n, i => '*')
  }

  function Mask(key: string): (r: string)
    ensures |r| == |key|
  {
    if VISIBLE >= |key| then Stars(|key|) else Stars(|key| - VISIBLE) + key[|key| - VISIBLE..]
  }

  /** A mask shows the last four characters of a longer key and nothing of a shorter one. */
  lemma MaskShowsLastFour(key: string, i: nat)
    requires i < |key|
    ensures Mask(key)[i] == if |key| > VISIBLE && i >= |key| - VISIBLE then key[i] else '*'
  {
    if VISIBLE < |key| {
      assert i >= |key| - VISIBLE ==> Mask(key)[i] == key[|key| - VISIBLE..][i - (|key| - VISIBLE)];
    }
  }

  lemma MaskTwice(key: string)
    ensures Mask(Mask(key)) == Mask(key)
  {
    var n, once := |key|, Mask(key);
    if VISIBLE < n {
      assert once == Stars(n - VISIBLE) + key[n - VISIBLE..];
      assert once[n - VISIBLE..] == key[n - VISIBLE..];
    } else {
      assert once == Stars(n);
    }
  }

  /** `mask_key` on a stored value, which may be no string: one without a length raises, and so
      does slicing a dictionary; `text` is Python's `str`. */
  function KeyMask(key: Json, text: Json -> string): Option<string> {
    match key
    case JText(s) => Some(Mask(s))
    case JList(items) =>
      if VISIBLE >= |items| then Some(Stars(|items|))
      else Some(Stars(|items| - VISIBLE) + text(JList(items[|items| - VISIBLE..])))
    case JDict(d) => if VISIBLE >= |d| then Some(Stars(|d|)) else None
    case _ => None
  }

  // ------------------------------------------------------------------ display and save

  /** What the registry says of a provider. */
  datatype Spec = Spec(sensitive: seq<string>, serverManaged: seq<string>, account: string, accountScoped: set<string>)

  datatype Result = Ok(value: Fields) | Raised

  function Masked(d: Fields, path: Path, text: Json -> string): Fields {
    var v := Get(JDict(d), path);
    if IsTrue(v) then Set(d, path, JText(Mask(text(v)))) else d
  }

  function MaskAll(d: Fields, names: seq<string>, text: Json -> string): Fields {
    if names == [] then d
    else Masked(MaskAll(d, names[..|names| - 1], text), Split(names[|names| - 1]), text)
  }

  function NameSet(names: seq<string>): set<string> {
    set f | f in names
  }

  function Display(spec: Option<Spec>, d: Fields, text: Json -> string): Fields {
    if spec.None? then d else MaskAll(d, spec.value.sensitive, text) - NameSet(spec.value.serverManaged)
  }

  /** One masked field of a payload is restored when it is the mask of what is stored. */
  function Restored(payload: Fields, path: Path, existing: Fields, text: Json -> string): Result {
    var v, stored := Get(JDict(payload), path), Get(JDict(existing), path);
    if !IsTrue(v) then Ok(payload)
    else
      var mask := KeyMask(if IsTrue(stored) then stored else JText(""), text);
      if mask.None? then Raised
      else if JText(mask.value) == v then Ok(Set(payload, path, stored))
      else Ok(payload)
  }

  function RestoreAll(payload: Fields, names: seq<string>, existing: Fields, text: Json -> string): Result {
    if names == [] then Ok(payload)
    else
      var before := RestoreAll(payload, names[..|names| - 1], existing, text);
      if before.Raised? then Raised else Restored(before.value, Split(names[|names| - 1]), existing, text)
  }

  function Field(d: Fields, name: string): Json {
    if name in d then d[name] else JNull
  }

  /** Python's equality makes a boolean equal to the number it stands for. */
  function Number(v: Json): Option<real> {
    match v
    case JBool(b) => Some(if b then 1.0 else 0.0)
    case JNumber(n) => Some(n)
    case _ => None
  }

  predicate SameAccount(a: Json, b: Json) {
    a == b || (Number(a).Some? && Number(a) == Number(b))
  }

  predicate AccountChanged(spec: Spec, credentials: Fields, existing: Option<Fields>) {
    existing.Some? && spec.account != "" &&
      !SameAccount(Field(credentials, spec.account), Field(existing.value, spec.account))
  }

  /** The server-managed fields that a save takes from the stored row. */
  predicate Carried(spec: Spec, credentials: Fields, existing: Option<Fields>, f: string) {
    && f in spec.serverManaged
    && existing.Some?
    && f in existing.value
    && !(AccountChanged(spec, credentials, existing) && f in spec.accountScoped)
  }

  function Hook(spec: Option<Spec>, credentials: Fields, existing: Option<Fields>): Fields {
    if spec.None? then credentials
    else
      var carried := set f | f in spec.value.serverManaged && Carried(spec.value, credentials, existing, f);
      map f | f in (credentials.Keys - NameSet(spec.value.serverManaged)) + carried ::
        if f in carried then existing.value[f] else credentials[f]
  }

  /** Saving a payload over a stored row, when the provider has no hook of its own. */
  function Save(spec: Option<Spec>, payload: Fields, existing: Option<Fields>, text: Json -> string): Result {
    var restored := if spec.None? || existing.None? then Ok(payload)
                    else RestoreAll(payload, spec.value.sensitive, existing.value, text);
    if restored.Raised? then Raised else Ok(Hook(spec, restored.value, existing))
  }

  // ------------------------------------------------------------- the same, step by step

  method CredentialsForDisplay(spec: Option<Spec>, value: Fields, text: Json -> string) returns (out: Fields)
    ensures out == Display(spec, value, text)
  {
    out := value;
    if spec.None? {
      return;
    }
    var names := spec.value.sensitive;
    for i := 0 to |names|
      invariant out == MaskAll(value, names[..i], text)
    {
      assert names[..i + 1][..i] == names[..i];
      var path := Split(names[i]);
      var v := GetNestedField(out, path);
      if IsTrue(v) {
        out := Set(out, path, JText(Mask(text(v))));
      }
    }
    assert names[..|names|] == names;
    var managed := spec.value.serverManaged;
    ghost var masked := out;
    for i := 0 to |managed|
      invariant out == masked - NameSet(managed[..i])
    {
      assert NameSet(managed[..i + 1]) == NameSet(managed[..i]) + {managed[i]};
      out := out - {managed[i]};
    }
    assert managed[..|managed|] == managed;
  }

  method PreserveMaskedFields(spec: Spec, request: Fields, existing: Fields, text: Json -> string) returns (r: Result)
    ensures r == RestoreAll(request, spec.sensitive, existing, text)
  {
    var names := spec.sensitive;
    var payload := request;
    for i := 0 to |names|
      invariant RestoreAll(request, names[..i], existing, text) == Ok(payload)
    {
      RestoreOneMore(request, names, i, existing, text, payload);
      var path := Split(names[i]);
      var v := GetNestedField(payload, path);
      var stored := GetNestedField(existing, path);
      if IsTrue(v) {
        var mask := KeyMask(if IsTrue(stored) then stored else JText(""), text);
        if mask.None? {
          ErrorStays(request, names, i + 1, existing, text);
          return Raised;
        }
        if JText(mask.value) == v {
          payload := Set(payload, path, stored);
        }
      }
    }
    assert names[..|names|] == names;
    r := Ok(payload);
  }

  lemma RestoreOneMore(payload: Fields, names: seq<string>, i: nat, existing: Fields, text: Json -> string,
                       before: Fields)
    requires i < |names| && RestoreAll(payload, names[..i], existing, text) == Ok(before)
    ensures RestoreAll(payload, names[..i + 1], existing, text) == Restored(before, Split(names[i]), existing, text)
  {
    assert names[..i + 1][..i] == names[..i];
  }

  lemma {:induction false} ErrorStays(payload: Fields, names: seq<string>, n: nat, existing: Fields,
                                      text: Json -> string)
    requires n <= |names| && RestoreAll(payload, names[..n], existing, text).Raised?
    ensures RestoreAll(payload, names, existing, text).Raised?
    decreases |names|
  {
    if n == |names| {
      assert names[..n] == names;
    } else {
      assert names[..|names| - 1][..n] == names[..n];
      ErrorStays(payload, names[..|names| - 1], n, existing, text);
    }
  }

  method RunPreprocessHook(spec: Option<Spec>, credentials: Fields, existing: Option<Fields>) returns (r: Fields)
    ensures r == Hook(spec, credentials, existing)
  {
    r := credentials;
    if spec.None? {
      return;
    }
    var changed := AccountChanged(spec.value, credentials, existing);
    var invalidated := if changed then spec.value.accountScoped else {};
    var managed := spec.value.serverManaged;
    for i := 0 to |managed|
      invariant forall f :: f in r <==>
                  if f in managed[..i] then Carried(spec.value, credentials, existing, f) else f in credentials
      invariant forall f :: f in r ==> r[f] == if f in managed[..i] then existing.value[f] else credentials[f]
    {
      var field := managed[i];
      assert forall f :: f in managed[..i + 1] <==> f in managed[..i] || f == field;
      r := r - {field};
      if field !in invalidated && existing.Some? && field in existing.value {
        r := r[field := existing.value[field]];
      }
    }
    assert managed[..|managed|] == managed;
  }
}
