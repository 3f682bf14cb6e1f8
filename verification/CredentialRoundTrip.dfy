/** Showing stored credentials and saving them unchanged gives the stored credentials back,
    and what any other payload can change (`api/routes/organization.py:115-133,553-624`). */
module CredentialRoundTrip {
  import opened Optional
  import opened Credentials

  function Paths(names: seq<string>): set<seq<string>> {
    set n | n in names :: Split(n)
  }

  lemma PathsSnoc(names: seq<string>, i: nat)
    requires i < |names|
    ensures Paths(names[..i + 1]) == Paths(names[..i]) + {Split(names[i])}
  {
    assert names[..i + 1] == names[..i] + [names[i]];
  }

  // ----------------------------------------------------------- veils: some secrets masked

  predicate Secret(v: Json) {
    v.JText? && v.s != ""
  }

  /** The paths below a key. */
  function Below(paths: set<seq<string>>, k: string): (r: set<seq<string>>)
    ensures forall q :: q in r <==> [k] + q in paths
  {
    var r := set q | q in paths && q != [] && q[0] == k :: q[1..];
    assert forall q :: [k] + q in paths ==> ([k] + q)[1..] == q;
    assert forall q :: q in paths && q != [] && q[0] == k ==> [k] + q[1..] == q;
    r
  }

  /** The second value is the first with secrets at some of these paths masked. */
  predicate Veil(v: Json, w: Json, paths: set<seq<string>>)
    decreases v
  {
    || w == v
    || (Secret(v) && [] in paths && w == JText(Mask(v.s)))
    || (v.JDict? && w.JDict? && v.d.Keys == w.d.Keys && forall k :: k in v.d ==> Veil(v.d[k], w.d[k], Below(paths, k)))
  }

  lemma {:induction false} VeilGrows(v: Json, w: Json, paths: set<seq<string>>, more: set<seq<string>>)
    requires Veil(v, w, paths) && paths <= more
    ensures Veil(v, w, more)
    decreases v
  {
    if w == v || !v.JDict? {
    } else {
      forall k | k in v.d ensures Veil(v.d[k], w.d[k], Below(more, k)) {
        VeilGrows(v.d[k], w.d[k], Below(paths, k), Below(more, k));
      }
    }
  }

  /** A field that is a secret or empty reads the same through a veil, or as its mask. */
  lemma {:induction false} VeilGet(v: Json, w: Json, paths: set<seq<string>>, p: seq<string>)
    requires Veil(v, w, paths) && (Secret(Get(v, p)) || !IsTrue(Get(v, p)))
    ensures Get(w, p) == Get(v, p) || (Secret(Get(v, p)) && p in paths && Get(w, p) == JText(Mask(Get(v, p).s)))
    decreases v
  {
    if w == v || p == [] || !v.JDict? || p[0] !in v.d {
    } else {
      VeilGet(v.d[p[0]], w.d[p[0]], Below(paths, p[0]), p[1..]);
      assert [p[0]] + p[1..] == p;
    }
  }

  /** Masking a secret, or putting it back, at a path. */
  lemma {:induction false} VeilSet(v: Fields, w: Fields, paths: set<seq<string>>, after: set<seq<string>>, p: Path,
                                   x: Json)
    requires Veil(JDict(v), JDict(w), paths) && paths - {p} <= after && Secret(Get(JDict(v), p))
    requires x == Get(JDict(v), p) || (p in after && x == JText(Mask(Get(JDict(v), p).s)))
    ensures Veil(JDict(v), JDict(Set(w, p, x)), after)
    decreases |p|
  {
    var k, set1 := p[0], Set(w, p, x);
    VeilKeys(v, w, paths);
    assert [k] + p[1..] == p;
    if |p| == 1 {
      assert p[1..] == [];
      assert Veil(v[k], set1[k], Below(after, k));
    } else {
      VeilDict(v[k], w[k], Below(paths, k));
      VeilSet(v[k].d, w[k].d, Below(paths, k), Below(after, k), p[1..], x);
    }
    forall j | j in v ensures Veil(v[j], set1[j], Below(after, j)) {
      if j != k {
        assert Below(paths, j) <= Below(after, j);
        VeilGrows(v[j], w[j], Below(paths, j), Below(after, j));
      }
    }
  }

  lemma VeilKeys(v: Fields, w: Fields, paths: set<seq<string>>)
    requires Veil(JDict(v), JDict(w), paths)
    ensures v.Keys == w.Keys && forall k :: k in v ==> Veil(v[k], w[k], Below(paths, k))
  {
    if v == w {
      assert forall k :: k in v ==> v[k] == w[k];
    }
  }

  lemma VeilDict(v: Json, w: Json, paths: set<seq<string>>)
    requires Veil(v, w, paths) && v.JDict?
    ensures w.JDict?
  {
  }

  /** A path where nothing is masked can be left out. */
  lemma {:induction false} VeilDrop(v: Json, w: Json, paths: set<seq<string>>, after: set<seq<string>>, p: seq<string>)
    requires Veil(v, w, paths) && paths - {p} <= after
    requires !Secret(Get(v, p)) || Get(w, p) == Get(v, p)
    ensures Veil(v, w, after)
    decreases v
  {
    if w == v || !v.JDict? {
    } else {
      VeilKeys(v.d, w.d, paths);
      forall k | k in v.d ensures Veil(v.d[k], w.d[k], Below(after, k)) {
        if p != [] && p[0] == k {
          assert [k] + p[1..] == p;
          VeilDrop(v.d[k], w.d[k], Below(paths, k), Below(after, k), p[1..]);
        } else {
          assert Below(paths, k) <= Below(after, k);
          VeilGrows(v.d[k], w.d[k], Below(paths, k), Below(after, k));
        }
      }
    }
  }

  lemma {:induction false} NoVeil(v: Json, w: Json)
    requires Veil(v, w, {})
    ensures w == v
    decreases v
  {
    if !v.JDict? {
    } else {
      VeilDict(v, w, {});
      VeilKeys(v.d, w.d, {});
      forall k | k in v.d ensures w.d[k] == v.d[k] {
        assert Below({}, k) == {};
        NoVeil(v.d[k], w.d[k]);
      }
      assert w.d == v.d;
    }
  }

  // ------------------------------------------------------------------ the good case

  /** What is used of Python's `str`: it leaves strings alone, and what it writes for a list or
      a dictionary is longer than its elements are many, a list opening with a bracket. */
  ghost predicate PythonText(text: Json -> string) {
    && (forall s :: text(JText(s)) == s)
    && (forall v: Json :: (v.JNumber? || v.JBool?) ==> text(v) != "")
    && (forall d :: |text(JDict(d))| > |d|)
    && (forall items :: |text(JList(items))| > |items| && text(JList(items))[0] == '[')
  }

  /** A sensitive field holds a string or nothing, or the server manages it. */
  predicate Maskable(d: Fields, p: Path, managed: set<string>) {
    p[0] in managed || Secret(Get(JDict(d), p)) || !IsTrue(Get(JDict(d), p))
  }

  lemma GetWithout(d: Fields, managed: set<string>, p: Path)
    ensures Get(JDict(d - managed), p) == if p[0] in managed then JNull else Get(JDict(d), p)
  {
  }

  /** Dropping the server-managed fields first or last makes no difference. */
  lemma MaskedWithout(d: Fields, managed: set<string>, p: Path, text: Json -> string)
    ensures Masked(d, p, text) - managed == Masked(d - managed, p, text)
  {
    GetWithout(d, managed, p);
    var v := Get(JDict(d), p);
    if IsTrue(v) {
      SetWithout(d, managed, p, JText(Mask(text(v))));
    }
  }

  lemma SetWithout(d: Fields, managed: set<string>, p: Path, x: Json)
    ensures Set(d, p, x) - managed == if p[0] in managed then d - managed else Set(d - managed, p, x)
  {
    if p[0] !in managed {
      assert Child(d, p[0]) == Child(d - managed, p[0]);
    }
  }

  lemma {:induction false} MaskAllWithout(d: Fields, managed: set<string>, names: seq<string>, text: Json -> string)
    ensures MaskAll(d, names, text) - managed == MaskAll(d - managed, names, text)
  {
    if names == [] {
    } else {
      var before := names[..|names| - 1];
      MaskAllWithout(d, managed, before, text);
      MaskedWithout(MaskAll(d, before, text), managed, Split(names[|names| - 1]), text);
    }
  }

  lemma MaskedVeils(d: Fields, m: Fields, paths: set<seq<string>>, p: Path, text: Json -> string)
    requires PythonText(text) && Veil(JDict(d), JDict(m), paths) && p in paths && Maskable(d, p, {})
    ensures Veil(JDict(d), JDict(Masked(m, p, text)), paths)
  {
    VeilGet(JDict(d), JDict(m), paths, p);
    if IsTrue(Get(JDict(m), p)) {
      MaskTwice(Get(JDict(d), p).s);
      VeilSet(d, m, paths, paths, p, JText(Mask(Get(JDict(d), p).s)));
    }
  }

  lemma {:induction false} MaskAllVeils(d: Fields, names: seq<string>, paths: set<seq<string>>, text: Json -> string)
    requires PythonText(text) && forall n :: n in names ==> Split(n) in paths && Maskable(d, Split(n), {})
    ensures Veil(JDict(d), JDict(MaskAll(d, names, text)), paths)
  {
    if names == [] {
    } else {
      var before := names[..|names| - 1];
      MaskAllVeils(d, before, paths, text);
      MaskedVeils(d, MaskAll(d, before, text), paths, Split(names[|names| - 1]), text);
    }
  }

  /** Restoring one path lifts the veil there. */
  lemma RestoredUnveils(d: Fields, managed: set<string>, w: Fields, paths: set<seq<string>>, p: Path,
                        text: Json -> string)
    requires Veil(JDict(d - managed), JDict(w), paths) && Maskable(d, p, managed)
    ensures Restored(w, p, d, text).Ok?
    ensures Veil(JDict(d - managed), JDict(Restored(w, p, d, text).value), paths - {p})
  {
    GetWithout(d, managed, p);
    var kept := d - managed;
    VeilGet(JDict(kept), JDict(w), paths, p);
    var v, stored := Get(JDict(w), p), Get(JDict(kept), p);
    if IsTrue(v) && v == JText(Mask(stored.s)) {
      VeilSet(kept, w, paths, paths - {p}, p, stored);
    } else {
      VeilDrop(JDict(kept), JDict(w), paths, paths - {p}, p);
    }
  }

  lemma {:induction false} RestoreAllUnveils(
    d: Fields, managed: set<string>, w: Fields, names: seq<string>, paths: set<seq<string>>, text: Json -> string)
    requires Veil(JDict(d - managed), JDict(w), paths)
    requires forall n :: n in names ==> Maskable(d, Split(n), managed)
    ensures RestoreAll(w, names, d, text).Ok?
    ensures Veil(JDict(d - managed), JDict(RestoreAll(w, names, d, text).value), paths - Paths(names))
  {
    if names == [] {
      assert paths - Paths(names) == paths;
    } else {
      var n := |names| - 1;
      RestoreAllUnveils(d, managed, w, names[..n], paths, text);
      var before := RestoreAll(w, names[..n], d, text).value;
      RestoredUnveils(d, managed, before, paths - Paths(names[..n]), Split(names[n]), text);
      PathsSnoc(names, n);
      assert names[..n + 1] == names;
      assert paths - Paths(names[..n]) - {Split(names[n])} == paths - Paths(names);
    }
  }

  /** Every sensitive field can be masked and recognised again. */
  predicate AllMaskable(spec: Spec, d: Fields) {
    forall n :: n in spec.sensitive ==> Maskable(d, Split(n), NameSet(spec.serverManaged))
  }

  /** Masking, dropping and restoring leave exactly the fields the server does not manage. */
  lemma {:induction false} RestoredDisplay(spec: Spec, d: Fields, text: Json -> string)
    requires PythonText(text) && AllMaskable(spec, d)
    ensures RestoreAll(Display(Some(spec), d, text), spec.sensitive, d, text) == Ok(d - NameSet(spec.serverManaged))
  {
    var managed, names := NameSet(spec.serverManaged), spec.sensitive;
    MaskAllWithout(d, managed, names, text);
    forall n | n in names ensures Maskable(d - managed, Split(n), {}) {
      GetWithout(d, managed, Split(n));
    }
    MaskAllVeils(d - managed, names, Paths(names), text);
    RestoreAllUnveils(d, managed, Display(Some(spec), d, text), names, Paths(names), text);
    assert Paths(names) - Paths(names) == {};
    NoVeil(JDict(d - managed), JDict(RestoreAll(Display(Some(spec), d, text), names, d, text).value));
  }

  /** Dropping the account field from the display makes the account look changed, and its
      resources go with it. */
  predicate LosesAccount(spec: Spec, d: Fields) {
    && spec.account != ""
    && spec.account in spec.serverManaged
    && Field(d, spec.account) != JNull
    && exists f :: f in spec.serverManaged && f in spec.accountScoped && f in d
  }

  lemma HookRestores(spec: Spec, d: Fields)
    ensures Hook(Some(spec), d - NameSet(spec.serverManaged), Some(d)) == d <==> !LosesAccount(spec, d)
  {
    var managed := NameSet(spec.serverManaged);
    var kept := d - managed;
    var r := Hook(Some(spec), kept, Some(d));
    assert Field(kept, spec.account) == if spec.account in managed then JNull else Field(d, spec.account);
    assert AccountChanged(spec, kept, Some(d)) <==>
           spec.account != "" && spec.account in managed && Field(d, spec.account) != JNull;
    if LosesAccount(spec, d) {
      var f :| f in spec.serverManaged && f in spec.accountScoped && f in d;
      assert !Carried(spec, kept, Some(d), f);
      assert f !in r;
    } else {
      forall f | f in d ensures f in r && r[f] == d[f] {
        if f in managed {
          assert Carried(spec, kept, Some(d), f);
        }
      }
      assert r.Keys == d.Keys;
    }
  }

  // ------------------------------------------------- a sensitive field that is no string

  lemma {:induction false} GetSplit(v: Json, p: seq<string>, q: seq<string>)
    requires p <= q
    ensures Get(v, q) == Get(Get(v, p), q[|p|..])
    decreases |p|
  {
    if p != [] && v.JDict? && p[0] in v.d {
      assert p[1..] <= q[1..] && q[1..][|p| - 1..] == q[|p|..];
      GetSplit(v.d[p[0]], p[1..], q[1..]);
    } else if p != [] {
      NothingBelowNull(q[|p|..]);
    }
  }

  /** Setting a field that is there changes no key of the dictionaries above it. */
  lemma {:induction false} SetBelow(d: Fields, p: seq<string>, q: Path, x: Json)
    requires p < q && Get(JDict(d), q) != JNull
    ensures Get(JDict(d), p).JDict? && Get(JDict(Set(d, q, x)), p).JDict?
    ensures Get(JDict(Set(d, q, x)), p).d.Keys == Get(JDict(d), p).d.Keys
    decreases |q|
  {
    if p == [] {
    } else {
      assert q[0] == p[0] && p[1..] < q[1..];
      SetBelow(d[q[0]].d, p[1..], q[1..], x);
    }
  }

  /** As seen by `len`: the same value, or a dictionary with the same keys. */
  predicate Alike(e: Json, a: Json) {
    a == e || (e.JDict? && a.JDict? && a.d.Keys == e.d.Keys)
  }

  /** A masked text that the save will not take for the mask of the stored value. */
  predicate Unrecognised(e: Json, a: Json, text: Json -> string) {
    Secret(a) && Mask(a.s) == a.s && KeyMask(e, text) != Some(a.s)
  }

  lemma MaskOfOtherIsUnrecognised(e: Json, a: Json, text: Json -> string)
    requires PythonText(text) && IsTrue(e) && !e.JText? && Alike(e, a)
    ensures Unrecognised(e, JText(Mask(text(a))), text)
  {
    MaskTwice(text(a));
    if e.JList? && |e.items| > VISIBLE {
      var n := |e.items| - VISIBLE;
      var tail := text(JList(e.items[n..]));
      assert (Stars(n) + tail)[n] == '[';
      assert Mask(text(a))[n] == '*';
    }
  }

  /** A sensitive path outside the server's fields whose value is no string and not empty, with
      no sensitive path above it. */
  predicate Offends(spec: Spec, d: Fields, p: Path) {
    && p in Paths(spec.sensitive)
    && p[0] !in spec.serverManaged
    && IsTrue(Get(JDict(d), p)) && !Get(JDict(d), p).JText?
  }

  predicate Topmost(names: seq<string>, p: Path) {
    forall n :: n in names ==> !(Split(n) < p)
  }

  lemma {:induction false} TopmostOffender(spec: Spec, d: Fields, p: Path) returns (q: Path)
    requires Offends(spec, d, p)
    ensures Offends(spec, d, q) && Topmost(spec.sensitive, q)
    decreases |p|
  {
    if Topmost(spec.sensitive, p) {
      q := p;
    } else {
      var n :| n in spec.sensitive && Split(n) < p;
      var above := Split(n);
      GetSplit(JDict(d), above, p);
      assert p[|above|..] != [];
      q := TopmostOffender(spec, d, above);
    }
  }

  lemma MaskedKeepsOffence(e: Json, m: Fields, p: Path, q: Path, text: Json -> string)
    requires PythonText(text) && IsTrue(e) && !e.JText? && !(q < p)
    requires Alike(e, Get(JDict(m), p)) || Unrecognised(e, Get(JDict(m), p), text)
    ensures var before, after := Get(JDict(m), p), Get(JDict(Masked(m, q, text)), p);
            if q != p && Alike(e, before) then Alike(e, after) else Unrecognised(e, after, text)
  {
    var a, v := Get(JDict(m), p), Get(JDict(m), q);
    if q == p {
      GetAfterSet(m, q, JText(Mask(text(v))));
      if Alike(e, a) {
        assert IsTrue(a);
        MaskOfOtherIsUnrecognised(e, a, text);
      }
    } else if p < q {
      GetSplit(JDict(m), p, q);
      assert q[|p|..] != [];
      if IsTrue(v) {
        SetBelow(m, p, q, JText(Mask(text(v))));
      }
    } else if IsTrue(v) {
      GetElsewhere(m, q, JText(Mask(text(v))), p);
    }
  }

  /** So the display shows a text there that the save will not recognise. */
  lemma {:induction false} MaskAllOffends(d: Fields, names: seq<string>, p: Path, text: Json -> string)
    requires PythonText(text) && Topmost(names, p)
    requires IsTrue(Get(JDict(d), p)) && !Get(JDict(d), p).JText?
    ensures var e, a := Get(JDict(d), p), Get(JDict(MaskAll(d, names, text)), p);
            if p in Paths(names) then Unrecognised(e, a, text) else Alike(e, a)
  {
    if names == [] {
    } else {
      var n := |names| - 1;
      assert Topmost(names[..n], p) by { assert forall m :: m in names[..n] ==> m in names; }
      MaskAllOffends(d, names[..n], p, text);
      assert names[n] in names && !(Split(names[n]) < p);
      MaskedKeepsOffence(Get(JDict(d), p), MaskAll(d, names[..n], text), p, Split(names[n]), text);
      PathsSnoc(names, n);
      assert names[..n + 1] == names;
    }
  }

  lemma RestoredKeepsOffence(d: Fields, w: Fields, p: Path, q: Path, text: Json -> string)
    requires PythonText(text) && IsTrue(Get(JDict(d), p)) && !(q < p)
    requires Unrecognised(Get(JDict(d), p), Get(JDict(w), p), text)
    requires Restored(w, q, d, text).Ok?
    ensures Get(JDict(Restored(w, q, d, text).value), p) == Get(JDict(w), p)
  {
    if p < q {
      GetSplit(JDict(w), p, q);
      assert q[|p|..] != [];
    } else if p != q {
      GetElsewhere(w, q, Get(JDict(d), q), p);
    }
  }

  lemma {:induction false} RestoreAllKeepsOffence(d: Fields, w: Fields, names: seq<string>, p: Path,
                                                  text: Json -> string)
    requires PythonText(text) && Topmost(names, p) && IsTrue(Get(JDict(d), p))
    requires Unrecognised(Get(JDict(d), p), Get(JDict(w), p), text)
    requires RestoreAll(w, names, d, text).Ok?
    ensures Get(JDict(RestoreAll(w, names, d, text).value), p) == Get(JDict(w), p)
  {
    if names == [] {
    } else {
      var n := |names| - 1;
      assert Topmost(names[..n], p) by { assert forall m :: m in names[..n] ==> m in names; }
      RestoreAllKeepsOffence(d, w, names[..n], p, text);
      assert names[n] in names && !(Split(names[n]) < p);
      RestoredKeepsOffence(d, RestoreAll(w, names[..n], d, text).value, p, Split(names[n]), text);
    }
  }

  lemma HookKeepsFields(spec: Spec, credentials: Fields, existing: Option<Fields>, p: Path)
    requires p[0] !in spec.serverManaged
    ensures Get(JDict(Hook(Some(spec), credentials, existing)), p) == Get(JDict(credentials), p)
  {
  }

  lemma OffenceBreaksRoundTrip(spec: Spec, d: Fields, p: Path, text: Json -> string)
    requires PythonText(text) && Offends(spec, d, p)
    ensures Save(Some(spec), Display(Some(spec), d, text), Some(d), text) != Ok(d)
  {
    var managed, names := NameSet(spec.serverManaged), spec.sensitive;
    var q := TopmostOffender(spec, d, p);
    var shown := Display(Some(spec), d, text);
    MaskAllWithout(d, managed, names, text);
    GetWithout(d, managed, q);
    MaskAllOffends(d - managed, names, q, text);
    var restored := RestoreAll(shown, names, d, text);
    if restored.Ok? {
      RestoreAllKeepsOffence(d, shown, names, q, text);
      HookKeepsFields(spec, restored.value, Some(d), q);
    }
  }

  // ------------------------------------------------------------------ main theorems

  /** Saving what was displayed, unchanged, gives exactly the stored credentials if and only if
      every sensitive field outside the server's own holds a string or nothing, and the account
      field is not one that the display drops while account-bound fields are stored. */
  lemma {:induction false} RoundTripIff(spec: Spec, d: Fields, text: Json -> string)
    requires PythonText(text)
    ensures Save(Some(spec), Display(Some(spec), d, text), Some(d), text) == Ok(d) <==>
            AllMaskable(spec, d) && !LosesAccount(spec, d)
  {
    if AllMaskable(spec, d) {
      RestoredDisplay(spec, d, text);
      HookRestores(spec, d);
    } else {
      var n :| n in spec.sensitive && !Maskable(d, Split(n), NameSet(spec.serverManaged));
      OffenceBreaksRoundTrip(spec, d, Split(n), text);
    }
  }

  predicate PairwiseIndependent(names: seq<string>) {
    forall i, j :: 0 <= i < j < |names| ==> Independent(Split(names[i]), Split(names[j]))
  }

  lemma MaskedExactly(d: Fields, p: Path, text: Json -> string, q: Path)
    requires q == p || Independent(p, q)
    ensures Get(JDict(Masked(d, p, text)), q)
         == if q == p && IsTrue(Get(JDict(d), p)) then JText(Mask(text(Get(JDict(d), p)))) else Get(JDict(d), q)
  {
    var x := JText(Mask(text(Get(JDict(d), p))));
    if q == p {
      GetAfterSet(d, p, x);
    } else {
      GetElsewhere(d, p, x, q);
    }
  }

  lemma {:induction false} MaskAllElsewhere(d: Fields, names: seq<string>, text: Json -> string, q: Path)
    requires forall i :: 0 <= i < |names| ==> Independent(Split(names[i]), q)
    ensures Get(JDict(MaskAll(d, names, text)), q) == Get(JDict(d), q)
  {
    if names == [] {
    } else {
      var n := |names| - 1;
      MaskAllElsewhere(d, names[..n], text, q);
      MaskedExactly(MaskAll(d, names[..n], text), Split(names[n]), text, q);
    }
  }

  lemma {:induction false} MaskAllExactly(d: Fields, names: seq<string>, text: Json -> string, i: nat)
    requires PairwiseIndependent(names) && i < |names|
    ensures var q := Split(names[i]);
            var v := Get(JDict(d), q);
            Get(JDict(MaskAll(d, names, text)), q) == if IsTrue(v) then JText(Mask(text(v))) else v
    decreases |names|
  {
    var n, q := |names| - 1, Split(names[i]);
    if i == n {
      MaskAllElsewhere(d, names[..n], text, q);
    } else {
      MaskAllExactly(d, names[..n], text, i);
    }
    MaskedExactly(MaskAll(d, names[..n], text), Split(names[n]), text, q);
  }

  /** The display shows no secret: with sensitive paths none of which is above another, each
      true sensitive field reads as its mask, no server-managed field is there, and everything
      else is shown as stored. */
  lemma DisplayHidesSecrets(spec: Spec, d: Fields, text: Json -> string, q: Path)
    requires PairwiseIndependent(spec.sensitive)
    requires q in Paths(spec.sensitive) || forall n :: n in spec.sensitive ==> Independent(Split(n), q)
    ensures var v, shown := Get(JDict(d), q), Get(JDict(Display(Some(spec), d, text)), q);
            if q[0] in spec.serverManaged then shown == JNull
            else shown == if q in Paths(spec.sensitive) && IsTrue(v) then JText(Mask(text(v))) else v
  {
    GetWithout(MaskAll(d, spec.sensitive, text), NameSet(spec.serverManaged), q);
    if q in Paths(spec.sensitive) {
      var i :| 0 <= i < |spec.sensitive| && Split(spec.sensitive[i]) == q;
      MaskAllExactly(d, spec.sensitive, text, i);
    } else {
      MaskAllElsewhere(d, spec.sensitive, text, q);
    }
  }

  /** Whatever the payload, a server-managed field of the result is the stored one, and a
      stored one is lost only when it is bound to the account. */
  lemma ServerFieldsAreStored(spec: Spec, payload: Fields, existing: Option<Fields>, text: Json -> string, f: string)
    requires Save(Some(spec), payload, existing, text).Ok? && f in spec.serverManaged
    ensures var r := Save(Some(spec), payload, existing, text).value;
            && (f in r ==> existing.Some? && f in existing.value && r[f] == existing.value[f])
            && (existing.Some? && f in existing.value && f !in spec.accountScoped ==> f in r)
  {
  }

  predicate IsMaskOfStored(payload: Fields, p: Path, existing: Fields, text: Json -> string) {
    var v, stored := Get(JDict(payload), p), Get(JDict(existing), p);
    IsTrue(v) && v.JText? && KeyMask(if IsTrue(stored) then stored else JText(""), text) == Some(v.s)
  }

  lemma RestoredExactly(payload: Fields, p: Path, existing: Fields, text: Json -> string, q: Path)
    requires Restored(payload, p, existing, text).Ok? && (q == p || Independent(p, q))
    ensures Get(JDict(Restored(payload, p, existing, text).value), q)
         == if q == p && IsMaskOfStored(payload, p, existing, text) then Get(JDict(existing), q)
            else Get(JDict(payload), q)
  {
    if q == p {
      GetAfterSet(payload, p, Get(JDict(existing), p));
    } else {
      GetElsewhere(payload, p, Get(JDict(existing), p), q);
    }
  }

  lemma {:induction false} RestoreAllElsewhere(payload: Fields, names: seq<string>, existing: Fields,
                                               text: Json -> string, q: Path)
    requires RestoreAll(payload, names, existing, text).Ok?
    requires forall i :: 0 <= i < |names| ==> Independent(Split(names[i]), q)
    ensures Get(JDict(RestoreAll(payload, names, existing, text).value), q) == Get(JDict(payload), q)
  {
    if names == [] {
    } else {
      var n := |names| - 1;
      RestoreAllElsewhere(payload, names[..n], existing, text, q);
      RestoredExactly(RestoreAll(payload, names[..n], existing, text).value, Split(names[n]), existing, text, q);
    }
  }

  lemma {:induction false} RestoreAllExactly(payload: Fields, names: seq<string>, existing: Fields,
                                             text: Json -> string, i: nat)
    requires PairwiseIndependent(names) && RestoreAll(payload, names, existing, text).Ok? && i < |names|
    ensures var q := Split(names[i]);
            Get(JDict(RestoreAll(payload, names, existing, text).value), q)
            == if IsMaskOfStored(payload, q, existing, text) then Get(JDict(existing), q) else Get(JDict(payload), q)
    decreases |names|
  {
    var n, q := |names| - 1, Split(names[i]);
    var before := RestoreAll(payload, names[..n], existing, text).value;
    if i == n {
      RestoreAllElsewhere(payload, names[..n], existing, text, q);
    } else {
      RestoreAllExactly(payload, names[..n], existing, text, i);
    }
    RestoredExactly(before, Split(names[n]), existing, text, q);
  }

  /** With sensitive paths none of which is above another, a save takes the stored value of a
      sensitive field exactly when the payload holds its mask, and the payload's value of every
      other field the server does not manage. */
  lemma OnlyMasksAreRestored(spec: Spec, payload: Fields, existing: Fields, text: Json -> string, q: Path)
    requires PairwiseIndependent(spec.sensitive) && Save(Some(spec), payload, Some(existing), text).Ok?
    requires q[0] !in spec.serverManaged
    requires q in Paths(spec.sensitive) || forall n :: n in spec.sensitive ==> Independent(Split(n), q)
    ensures Get(JDict(Save(Some(spec), payload, Some(existing), text).value), q)
         == if q in Paths(spec.sensitive) && IsMaskOfStored(payload, q, existing, text) then Get(JDict(existing), q)
            else Get(JDict(payload), q)
  {
    if q in Paths(spec.sensitive) {
      var i :| 0 <= i < |spec.sensitive| && Split(spec.sensitive[i]) == q;
      RestoreAllExactly(payload, spec.sensitive, existing, text, i);
    } else {
      RestoreAllElsewhere(payload, spec.sensitive, existing, text, q);
    }
    HookKeepsFields(spec, RestoreAll(payload, spec.sensitive, existing, text).value, Some(existing), q);
  }
}
