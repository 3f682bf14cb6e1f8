/** Allocation of Python variable names for workflow nodes
    (`_identifier`, `api/mcp_server/python_bridge.py:32-44`). */
module Identifiers {
  import opened Text

  /** What Unicode says about characters outside ASCII; inside ASCII nothing is left open. */
  datatype Unicode = Unicode(lower: string -> string, word: char -> bool, digit: char -> bool)

  function LowerAscii(s: string): (r: string)
    ensures |r| == |s|
    ensures Ascii(s) ==> Ascii(r) && forall i :: 0 <= i < |r| ==> !('A' <= r[i] <= 'Z')
  {
    seq(|s|, i requires 0 <= i < |s| => if 'A' <= s[i] <= 'Z' then (s[i] as int + 32) as char else s[i])
  }

  function Lower(u: Unicode, s: string): string {
    if Ascii(s) then LowerAscii(s) else u.lower(s)
  }

  predicate IsWord(u: Unicode, c: char) {
    if c < 128 as char
    then 'a' <= c <= 'z' || 'A' <= c <= 'Z' || '0' <= c <= '9' || c == '_'
    else u.word(c)
  }

  predicate IsDigit(u: Unicode, c: char) {
    if c < 128 as char then '0' <= c <= '9' else u.digit(c)
  }

  /** `re.sub(r"\W+", "_", s)`. */
  function Collapse(u: Unicode, s: string, inRun: bool): string
  {
    if s == [] then []
    else if IsWord(u, s[0]) then [s[0]] + Collapse(u, s[1..], false)
    else (if inRun then [] else "_") + Collapse(u, s[1..], true)
  }

  predicate IsKeyword(s: string) {
    s in {"False", "None", "True", "and", "as", "assert", "async", "await", "break", "class",
          "continue", "def", "del", "elif", "else", "except", "finally", "for", "from", "global",
          "if", "import", "in", "is", "lambda", "nonlocal", "not", "or", "pass", "raise",
          "return", "try", "while", "with", "yield"}
  }

  /** Names the generated source may not bind: keywords, and the workflow's own variable. */
  predicate Reserved(s: string) {
    IsKeyword(s) || s == "workflow"
  }

  predicate IsUnderscore(c: char) {
    c == '_'
  }

  function Slug(u: Unicode, raw: string): (r: string)
    ensures r != []
  {
    var slug := Strip(Collapse(u, Lower(u, Strip(raw, IsSpace)), false), IsUnderscore);
    if slug == [] then "node" else slug
  }

  function AvoidDigit(u: Unicode, slug: string): string
    requires slug != []
  {
    if IsDigit(u, slug[0]) then "n_" + slug else slug
  }

  function AvoidReserved(candidate: string): string {
    if Reserved(candidate) then "node_" + candidate else candidate
  }

  /** The name asked for, before any suffix makes it unique. */
  function BaseName(u: Unicode, raw: string): string {
    AvoidReserved(AvoidDigit(u, Slug(u, raw)))
  }

  function Suffixed(base: string, k: nat): string {
    base + "_" + Decimal(k)
  }

  lemma SuffixedInjective(base: string, j: nat, k: nat)
    requires Suffixed(base, j) == Suffixed(base, k)
    ensures j == k
  {
    assert Decimal(j) == Suffixed(base, j)[|base| + 1..];
    assert Decimal(k) == Suffixed(base, k)[|base| + 1..];
    DecimalInjective(j, k);
  }

  /** The used names that suffixes from `k` on could still collide with: the measure that
      ends the search. */
  ghost function Ahead(base: string, used: set<string>, k: nat): set<string> {
    set s | s in used && exists j: nat :: j >= k && s == Suffixed(base, j)
  }

  lemma AheadShrinks(base: string, used: set<string>, k: nat)
    requires Suffixed(base, k) in used
    ensures Ahead(base, used, k + 1) < Ahead(base, used, k)
  {
    assert Suffixed(base, k) in Ahead(base, used, k);
    if Suffixed(base, k) in Ahead(base, used, k + 1) {
      var j: nat :| j >= k + 1 && Suffixed(base, k) == Suffixed(base, j);
      SuffixedInjective(base, j, k);
    }
  }

  /** The source's choice, said without its loop: the bare name when free, else the free
      suffixed name with the least suffix from 2 on. */
  ghost predicate IsFirstFree(base: string, used: set<string>, name: string) {
    && name !in used
    && (base !in used ==> name == base)
    && (base in used ==>
          exists k: nat :: k >= 2 && name == Suffixed(base, k) &&
                           forall j: nat :: 2 <= j < k ==> Suffixed(base, j) in used)
  }

  /** The suffix search as a function, so that specifications can name its result. */
  function NextFree(base: string, used: set<string>, k: nat): string
    decreases Ahead(base, used, k)
  {
    if Suffixed(base, k) !in used then Suffixed(base, k)
    else
      AheadShrinks(base, used, k);
      NextFree(base, used, k + 1)
  }

  function FirstFree(base: string, used: set<string>): string {
    if base !in used then base else NextFree(base, used, 2)
  }

  lemma {:induction false} NextFreeMeaning(base: string, used: set<string>, k: nat)
    ensures var name := NextFree(base, used, k);
            name !in used &&
            exists n: nat :: n >= k && name == Suffixed(base, n) &&
                             forall j: nat :: k <= j < n ==> Suffixed(base, j) in used
    decreases Ahead(base, used, k)
  {
    if Suffixed(base, k) !in used {
    } else {
      AheadShrinks(base, used, k);
      NextFreeMeaning(base, used, k + 1);
    }
  }

  /** The search returns the source's choice, and nothing else satisfies its description. */
  lemma FirstFreeMeaning(base: string, used: set<string>, name: string)
    ensures name == FirstFree(base, used) <==> IsFirstFree(base, used, name)
  {
    NextFreeMeaning(base, used, 2);
    if IsFirstFree(base, used, name) {
      FirstFreeUnique(base, used, name, FirstFree(base, used));
    }
  }

  lemma FirstFreeUnique(base: string, used: set<string>, a: string, b: string)
    requires IsFirstFree(base, used, a) && IsFirstFree(base, used, b)
    ensures a == b
  {
    if base in used {
      var j: nat :| j >= 2 && a == Suffixed(base, j) && forall i: nat :: 2 <= i < j ==> Suffixed(base, i) in used;
      var k: nat :| k >= 2 && b == Suffixed(base, k) && forall i: nat :: 2 <= i < k ==> Suffixed(base, i) in used;
      assert !(j < k) && !(k < j);
    }
  }

  /** The search of `_identifier` for a cleaned name; `used` grows by the choice. */
  method Identifier(base: string, used: set<string>) returns (candidate: string, used': set<string>)
    ensures candidate == FirstFree(base, used)
    ensures used' == used + {candidate}
  {
    candidate := base;
    var suffix: nat := 2;
    while candidate in used
      invariant suffix >= 2
      invariant suffix == 2 ==> candidate == base
      invariant suffix > 2 ==> candidate == Suffixed(base, suffix - 1)
      invariant suffix > 2 ==> base in used && NextFree(base, used, 2) == NextFree(base, used, suffix - 1)
      decreases suffix == 2, Ahead(base, used, suffix - 1)
    {
      if suffix > 2 {
        AheadShrinks(base, used, suffix - 1);
      }
      candidate := Suffixed(base, suffix);
      suffix := suffix + 1;
    }
    used' := used + {candidate};
  }

  function Used(vars: seq<string>): set<string> {
    set v | v in vars
  }

  lemma UsedGrows(vars: seq<string>, i: nat)
    requires i < |vars|
    ensures Used(vars[..i + 1]) == Used(vars[..i]) + {vars[i]}
  {
    assert vars[..i + 1] == vars[..i] + [vars[i]];
  }

  /** The variables given to nodes whose base names are `bases`, each chosen with the
      earlier ones in use. */
  function Variables(bases: seq<string>): (vars: seq<string>)
    ensures |vars| == |bases|
  {
    if bases == [] then []
    else
      var before := Variables(bases[..|bases| - 1]);
      before + [FirstFree(bases[|bases| - 1], Used(before))]
  }

  // ------------------------------------------------- what every choice guarantees

  lemma ReservedNamesHaveNoUnderscore(s: string, i: nat)
    requires i < |s| && s[i] == '_'
    ensures !Reserved(s)
  {}

  lemma AvoidReservedWorks(candidate: string)
    ensures !Reserved(AvoidReserved(candidate))
  {
    if Reserved(candidate) {
      ReservedNamesHaveNoUnderscore("node_" + candidate, 4);
    }
  }

  lemma FirstFreeIsUnreserved(candidate: string, used: set<string>, name: string)
    requires candidate != [] && IsFirstFree(AvoidReserved(candidate), used, name)
    ensures name != [] && !Reserved(name)
  {
    var base := AvoidReserved(candidate);
    AvoidReservedWorks(candidate);
    if base in used {
      ReservedNamesHaveNoUnderscore(name, |base|);
    }
  }

  /** No choice is ever empty, a keyword, `workflow`, or a name in use, in any alphabet. */
  lemma {:induction false} FirstFreeIsFresh(u: Unicode, raw: string, used: set<string>, name: string)
    requires IsFirstFree(BaseName(u, raw), used, name)
    ensures name != [] && !Reserved(name) && name !in used
  {
    FirstFreeIsUnreserved(AvoidDigit(u, Slug(u, raw)), used, name);
  }

  /** A name that Python reads back as itself: an ASCII identifier (Python Language
      Reference, section 2.3), which NFKC normalisation leaves alone. */
  predicate IsAsciiIdentifier(s: string) {
    && s != []
    && !('0' <= s[0] <= '9')
    && AllIdentifierChars(s)
  }

  predicate AllIdentifierChars(s: string) {
    forall i :: 0 <= i < |s| ==> 'a' <= s[i] <= 'z' || 'A' <= s[i] <= 'Z' || '0' <= s[i] <= '9' || s[i] == '_'
  }

  lemma IdentifierExtends(a: string, b: string)
    requires IsAsciiIdentifier(a) && AllIdentifierChars(b)
    ensures IsAsciiIdentifier(a + b)
  {}

  predicate IsSlugChar(c: char) {
    'a' <= c <= 'z' || '0' <= c <= '9' || c == '_'
  }

  predicate AllSlugChars(s: string) {
    forall i :: 0 <= i < |s| ==> IsSlugChar(s[i])
  }

  lemma {:induction false} CollapsedIsPlain(u: Unicode, s: string, inRun: bool)
    requires Ascii(s) && forall i :: 0 <= i < |s| ==> !('A' <= s[i] <= 'Z')
    ensures AllSlugChars(Collapse(u, s, inRun))
  {
    if s == [] {
    } else {
      CollapsedIsPlain(u, s[1..], !IsWord(u, s[0]));
    }
  }

  lemma StripKeepsPlain(s: string)
    requires AllSlugChars(s)
    ensures AllSlugChars(Strip(s, IsUnderscore))
  {}

  lemma {:induction false} SlugIsPlain(u: Unicode, raw: string)
    requires Ascii(raw)
    ensures AllSlugChars(Slug(u, raw))
  {
    var stripped := Strip(raw, IsSpace);
    var lowered := LowerAscii(stripped);
    CollapsedIsPlain(u, lowered, false);
    StripKeepsPlain(Collapse(u, lowered, false));
  }

  lemma AvoidIsLegal(u: Unicode, slug: string)
    requires slug != [] && AllSlugChars(slug)
    ensures IsAsciiIdentifier(AvoidReserved(AvoidDigit(u, slug)))
  {
    IdentifierExtends("n_", slug);
    IdentifierExtends("node_", AvoidDigit(u, slug));
  }

  lemma {:induction false} BaseNameIsLegal(u: Unicode, raw: string)
    requires Ascii(raw)
    ensures IsAsciiIdentifier(BaseName(u, raw))
  {
    SlugIsPlain(u, raw);
    AvoidIsLegal(u, Slug(u, raw));
  }

  /** Every name chosen for an ASCII node name is an identifier that parses back unchanged. */
  lemma {:induction false} FirstFreeIsLegal(u: Unicode, raw: string, used: set<string>)
    requires Ascii(raw)
    ensures IsAsciiIdentifier(FirstFree(BaseName(u, raw), used))
  {
    BaseNameIsLegal(u, raw);
    var base := BaseName(u, raw);
    var name := FirstFree(base, used);
    FirstFreeMeaning(base, used, name);
    if base in used {
      var k: nat :| k >= 2 && name == Suffixed(base, k);
      IdentifierExtends(base, "_");
      IdentifierExtends(base + "_", Decimal(k));
    }
  }

  lemma {:induction false} FirstFreeInVariables(bases: seq<string>, i: nat)
    requires i < |bases|
    ensures Variables(bases)[i] == FirstFree(bases[i], Used(Variables(bases[..i])))
  {
    var n := |bases| - 1;
    if i == n {
    } else {
      FirstFreeInVariables(bases[..n], i);
      assert bases[..n][..i] == bases[..i];
    }
  }

  lemma {:induction false} VariablesDistinct(bases: seq<string>, i: nat, j: nat)
    requires i < j < |bases|
    ensures Variables(bases)[i] != Variables(bases)[j]
  {
    var n := |bases| - 1;
    if j < n {
      VariablesDistinct(bases[..n], i, j);
    } else {
      var before := Variables(bases[..n]);
      assert before[i] in Used(before);
      FirstFreeMeaning(bases[n], Used(before), FirstFree(bases[n], Used(before)));
    }
  }

  /** The variables of a workflow are pairwise different and bind neither a keyword nor the
      workflow variable, whatever the nodes are called; with ASCII node names they are
      identifiers Python reads back unchanged. */
  lemma {:induction false} VariablesAreUsable(u: Unicode, names: seq<string>, bases: seq<string>, i: nat)
    requires |bases| == |names| && i < |names|
    requires bases[i] == BaseName(u, names[i])
    ensures var vars := Variables(bases);
            && vars[i] != [] && !Reserved(vars[i])
            && (Ascii(names[i]) ==> IsAsciiIdentifier(vars[i]))
            && forall j :: 0 <= j < |vars| && j != i ==> vars[j] != vars[i]
  {
    var name := Variables(bases)[i];
    FirstFreeInVariables(bases, i);
    var used := Used(Variables(bases[..i]));
    FirstFreeMeaning(bases[i], used, name);
    FirstFreeIsFresh(u, names[i], used, name);
    if Ascii(names[i]) {
      FirstFreeIsLegal(u, names[i], used);
    }
    forall j | 0 <= j < |names| && j != i ensures Variables(bases)[j] != name {
      VariablesDistinct(bases, if i < j then i else j, if i < j then j else i);
    }
  }
}
