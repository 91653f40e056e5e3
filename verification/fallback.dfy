/** The deterministic add: a derived path, moved aside on collision, and one write. */
module Fallback {
  import opened Wrappers
  import opened Text

  // ---------------------------------------------------------------------
  // Slugs and paths.

  /** Letters and digits lowered, everything between them one dash. */
  function Dashed(s: string, prevDash: bool): string {
    if s == "" then ""
    else if IsAlnum(s[0]) then [LowerAscii(s[0])] + Dashed(s[1..], false)
    else if prevDash then Dashed(s[1..], true)
    else "-" + Dashed(s[1..], true)
  }

  function TrimLeft(s: string, c: char): string {
    if s != "" && s[0] == c then TrimLeft(s[1..], c) else s
  }

  function TrimRight(s: string, c: char): string {
    if s != "" && s[|s| - 1] == c then TrimRight(s[..|s| - 1], c) else s
  }

  function Limit(s: string, n: nat): string {
    if |s| > n then s[..n] else s
  }

  const SLUG_CHARS: nat := 64

  function Slugify(s: string): string {
    TrimRight(TrimLeft(Dashed(Limit(s, SLUG_CHARS), true), '-'), '-')
  }

  method MakeSlug(s: string) returns (out: string)
    ensures out == Slugify(s)
  {
    var source := Limit(s, SLUG_CHARS);
    out := "";
    var prevDash := true;
    for k := 0 to |source|
      invariant out + Dashed(source[k..], prevDash) == Dashed(source, true)
    {
      var c := source[k];
      ghost var rest := source[k + 1..];
      assert source[k..][1..] == rest;
      if IsAlnum(c) {
        assert out + ([LowerAscii(c)] + Dashed(rest, false)) == (out + [LowerAscii(c)]) + Dashed(rest, false);
        out := out + [LowerAscii(c)];
        prevDash := false;
      } else if !prevDash {
        assert out + ("-" + Dashed(rest, true)) == (out + "-") + Dashed(rest, true);
        out := out + "-";
        prevDash := true;
      }
    }
    assert out + "" == out;
    out := TrimRight(TrimLeft(out, '-'), '-');
  }

  /** Lowercase letters, digits and single dashes, none at either end. */
  predicate IsSlug(s: string) {
    && (forall k :: 0 <= k < |s| ==> s[k] == '-' || (IsAlnum(s[k]) && LowerAscii(s[k]) == s[k]))
    && (forall k :: 0 < k < |s| ==> s[k] != '-' || s[k - 1] != '-')
    && (s != "" ==> s[0] != '-' && s[|s| - 1] != '-')
  }

  /** As far as the loop gets: no dash after a dash. */
  ghost predicate IsDashed(s: string, prevDash: bool) {
    && (forall k :: 0 <= k < |s| ==> s[k] == '-' || (IsAlnum(s[k]) && LowerAscii(s[k]) == s[k]))
    && (forall k :: 0 < k < |s| ==> s[k] != '-' || s[k - 1] != '-')
    && (s != "" && prevDash ==> s[0] != '-')
  }

  lemma {:induction false} DashedShape(s: string, prevDash: bool)
    ensures IsDashed(Dashed(s, prevDash), prevDash) && |Dashed(s, prevDash)| <= |s|
  {
    if s != "" {
      DashedShape(s[1..], !IsAlnum(s[0]));
    }
  }

  lemma {:induction false} TrimRightPrefix(s: string, c: char)
    ensures TrimRight(s, c) <= s
    ensures TrimRight(s, c) != "" ==> TrimRight(s, c)[|TrimRight(s, c)| - 1] != c
  {
    if s != "" && s[|s| - 1] == c {
      TrimRightPrefix(s[..|s| - 1], c);
    }
  }

  /** What a slug is. */
  lemma SlugShape(s: string)
    ensures IsSlug(Slugify(s)) && |Slugify(s)| <= SLUG_CHARS
  {
    var dashed := Dashed(Limit(s, SLUG_CHARS), true);
    DashedShape(Limit(s, SLUG_CHARS), true);
    assert TrimLeft(dashed, '-') == dashed;
    TrimRightPrefix(dashed, '-');
  }

  lemma {:induction false} DashedFixed(s: string, prevDash: bool)
    requires IsDashed(s, prevDash)
    ensures Dashed(s, prevDash) == s
  {
    if s != "" {
      DashedFixed(s[1..], s[0] == '-');
    }
  }

  /** A slug is its own slug. */
  lemma SlugIdempotent(s: string)
    ensures Slugify(Slugify(s)) == Slugify(s)
  {
    SlugShape(s);
    DashedFixed(Slugify(s), true);
  }

  /** The slugs of the parts, the empty ones left out, between slashes. */
  function JoinSlugs(parts: seq<string>): string {
    if |parts| == 0 then ""
    else
      var rest := JoinSlugs(parts[1..]);
      if Slugify(parts[0]) == "" then rest
      else if rest == "" then Slugify(parts[0])
      else Slugify(parts[0]) + "/" + rest
  }

  function PathSlug(p: string): string {
    JoinSlugs(SplitOn(TrimRight(TrimLeft(p, '/'), '/'), '/'))
  }

  function FirstFilled(lines: seq<string>): string {
    if |lines| == 0 then "untitled" else if Trim(lines[0]) != "" then lines[0] else FirstFilled(lines[1..])
  }

  const TITLE_CHARS: nat := 80

  function DeriveTitle(content: string): string {
    Trim(Limit(FirstFilled(Lines(content)), TITLE_CHARS))
  }

  function SlugOrTitle(pathHint: Option<string>, content: string): string {
    if pathHint.Some? && PathSlug(pathHint.value) != "" then PathSlug(pathHint.value) else Slugify(DeriveTitle(content))
  }

  function ShelfPart(shelf: Option<string>): string {
    if shelf.Some? && Slugify(shelf.value) != "" then Slugify(shelf.value) + "/" else ""
  }

  function DerivedStem(pathHint: Option<string>, shelf: Option<string>, content: string): string {
    "/" + ShelfPart(shelf) + SlugOrTitle(pathHint, content)
  }

  function DerivePath(pathHint: Option<string>, shelf: Option<string>, content: string): string {
    DerivedStem(pathHint, shelf, content) + ".md"
  }

  // ---------------------------------------------------------------------
  // Candidates.

  /** `trim_end_matches(".md")`. */
  function TrimMd(path: string): string {
    if |path| >= 3 && path[|path| - 3..] == ".md" then TrimMd(path[..|path| - 3]) else path
  }

  /** The `k`-th path tried: the derived one, then with suffixes from 2 on. */
  function Candidate(base: string, k: nat): string {
    if k <= 1 then base else TrimMd(base) + "-" + ToDecimal(k) + ".md"
  }

  lemma {:induction false} JoinNoDot(parts: seq<string>)
    ensures '.' !in JoinSlugs(parts)
  {
    if |parts| > 0 {
      SlugShape(parts[0]);
      JoinNoDot(parts[1..]);
    }
  }

  lemma StemNoDot(pathHint: Option<string>, shelf: Option<string>, content: string)
    ensures '.' !in DerivedStem(pathHint, shelf, content)
  {
    if pathHint.Some? {
      JoinNoDot(SplitOn(TrimRight(TrimLeft(pathHint.value, '/'), '/'), '/'));
    }
    SlugShape(DeriveTitle(content));
    if shelf.Some? {
      SlugShape(shelf.value);
    }
  }

  /** A derived path loses exactly its extension. */
  lemma DerivedTrim(pathHint: Option<string>, shelf: Option<string>, content: string)
    ensures TrimMd(DerivePath(pathHint, shelf, content)) == DerivedStem(pathHint, shelf, content)
  {
    var stem := DerivedStem(pathHint, shelf, content);
    StemNoDot(pathHint, shelf, content);
    assert (stem + ".md")[|stem|..] == ".md" && (stem + ".md")[..|stem|] == stem;
    if |stem| >= 3 {
      assert stem[|stem| - 3] in stem && stem[|stem| - 3..][0] == stem[|stem| - 3];
    }
  }

  lemma DecimalInjective(j: nat, k: nat)
    requires ToDecimal(j) == ToDecimal(k)
    ensures j == k
  {
    DecimalRoundTrip(j);
    DecimalRoundTrip(k);
  }

  /** No path is tried twice. */
  lemma CandidatesDistinct(stem: string, j: nat, k: nat)
    requires TrimMd(stem + ".md") == stem && 1 <= j < k
    ensures Candidate(stem + ".md", j) != Candidate(stem + ".md", k)
  {
    var a, b := Candidate(stem + ".md", j), Candidate(stem + ".md", k);
    if j == 1 {
      assert |b| > |a|;
    } else if a == b {
      var n := |stem| + 1;
      assert a[n..|a| - 3] == ToDecimal(j) && b[n..|b| - 3] == ToDecimal(k);
      DecimalInjective(j, k);
    }
  }

  // ---------------------------------------------------------------------
  // The add.

  datatype Concept = Concept(kind: string, title: string, body: string)

  datatype StoreError = NotFound | Fault

  /** A store of concepts by path. Reading some paths, or writing at all, may fail. */
  class ConceptStore {
    var concepts: map<string, Concept>
    const unreadable: set<string>
    const readOnly: bool

    constructor (concepts: map<string, Concept>, unreadable: set<string>, readOnly: bool)
      ensures this.concepts == concepts && this.unreadable == unreadable && this.readOnly == readOnly
    {
      this.concepts, this.unreadable, this.readOnly := concepts, unreadable, readOnly;
    }

    method Get(path: string) returns (found: Result<Concept, StoreError>)
      ensures found == if path in unreadable then Err(Fault)
                       else if path in concepts then Ok(concepts[path]) else Err(NotFound)
    {
      if path in unreadable {
        return Err(Fault);
      }
      if path !in concepts {
        return Err(NotFound);
      }
      found := Ok(concepts[path]);
    }

    method Put(path: string, concept: Concept) returns (error: Option<StoreError>)
      modifies this`concepts
      ensures error == if readOnly then Some(Fault) else None
      ensures concepts == if readOnly then old(concepts) else old(concepts)[path := concept]
    {
      if readOnly {
        return Some(Fault);
      }
      concepts := concepts[path := concept];
      error := None;
    }
  }

  predicate SameContent(concept: Concept, content: string) {
    Trim(concept.body) == Trim(content)
  }

  /** The search stops at this path: it is free, it holds this content, or it cannot be read. */
  predicate StopsAt(concepts: map<string, Concept>, unreadable: set<string>, content: string, path: string) {
    path in unreadable || path !in concepts || SameContent(concepts[path], content)
  }

  /** Candidate `k` is the first to stop the search. */
  ghost predicate FirstStop(concepts: map<string, Concept>, unreadable: set<string>, base: string, content: string,
                            k: nat) {
    && 1 <= k && StopsAt(concepts, unreadable, content, Candidate(base, k))
    && forall j :: 1 <= j < k ==> !StopsAt(concepts, unreadable, content, Candidate(base, j))
  }

  /** The paths tried before candidate `k`. */
  ghost function Tried(base: string, k: nat): set<string> {
    if k <= 1 then {} else Tried(base, k - 1) + {Candidate(base, k - 1)}
  }

  lemma {:induction false} TriedOnce(stem: string, k: nat, m: nat)
    requires TrimMd(stem + ".md") == stem && 1 <= k <= m
    ensures |Tried(stem + ".md", k)| == k - 1
    ensures Candidate(stem + ".md", m) !in Tried(stem + ".md", k)
  {
    if k > 1 {
      TriedOnce(stem, k - 1, k - 1);
      TriedOnce(stem, k - 1, m);
      CandidatesDistinct(stem, k - 1, m);
    }
  }

  lemma {:induction false} TriedInStore(concepts: map<string, Concept>, unreadable: set<string>, base: string,
                                        content: string, k: nat)
    requires forall j :: 1 <= j < k ==> !StopsAt(concepts, unreadable, content, Candidate(base, j))
    ensures Tried(base, k) <= concepts.Keys
  {
    if k > 1 {
      TriedInStore(concepts, unreadable, base, content, k - 1);
      assert !StopsAt(concepts, unreadable, content, Candidate(base, k - 1));
    }
  }

  /** The search fails at most once for each concept in the store. */
  lemma TriesBounded(concepts: map<string, Concept>, unreadable: set<string>, stem: string, content: string, k: nat)
    requires TrimMd(stem + ".md") == stem && 1 <= k
    requires forall j :: 1 <= j < k ==> !StopsAt(concepts, unreadable, content, Candidate(stem + ".md", j))
    ensures k - 1 <= |concepts|
  {
    TriedOnce(stem, k, k);
    TriedInStore(concepts, unreadable, stem + ".md", content, k);
    var tried := Tried(stem + ".md", k);
    assert concepts.Keys == tried + (concepts.Keys - tried);
    assert |concepts| == |concepts.Keys|;
  }

  /** Tries the derived path, then -2, -3, ...; every path tried is another, so the
      search ends in any store. */
  method FindPath(cs: ConceptStore, stem: string, content: string)
    returns (path: string, error: Option<StoreError>, k: nat)
    requires TrimMd(stem + ".md") == stem
    ensures FirstStop(cs.concepts, cs.unreadable, stem + ".md", content, k)
    ensures path == Candidate(stem + ".md", k)
    ensures error == if path in cs.unreadable then Some(Fault) else None
  {
    var base := stem + ".md";
    path := base;
    k := 1;
    while true
      invariant 1 <= k && path == Candidate(base, k)
      invariant forall j :: 1 <= j < k ==> !StopsAt(cs.concepts, cs.unreadable, content, Candidate(base, j))
      decreases |cs.concepts| + 1 - k
    {
      var found := cs.Get(path);
      if found.Err? {
        return path, if found.error == NotFound then None else Some(found.error), k;
      }
      if Trim(found.value.body) == Trim(content) {
        return path, None, k;
      }
      var suffix := k + 1;
      path := TrimMd(base) + "-" + ToDecimal(suffix) + ".md";
      k := suffix;
      TriesBounded(cs.concepts, cs.unreadable, stem, content, k);
    }
  }

  function KindOf(conceptType: Option<string>): string {
    if conceptType.Some? && Trim(conceptType.value) != "" then Trim(conceptType.value) else "Note"
  }

  /** What one add does: `before` becomes `after`, at candidate `k`. */
  ghost predicate Adds(before: map<string, Concept>, unreadable: set<string>, readOnly: bool, base: string,
                       content: string,
                       kind: string, after: map<string, Concept>, result: Result<string, StoreError>, k: nat)
  {
    && FirstStop(before, unreadable, base, content, k)
    && var path := Candidate(base, k);
       && result == (if path in unreadable || readOnly then Err(Fault) else Ok(path))
       && after == if result.Err? then before else before[path := Concept(kind, DeriveTitle(content), content)]
  }

  method DirectWriteAdd(cs: ConceptStore, content: string, pathHint: Option<string>, shelf: Option<string>,
                        conceptType: Option<string>)
    returns (result: Result<string, StoreError>, k: nat)
    modifies cs`concepts
    ensures Adds(old(cs.concepts), cs.unreadable, cs.readOnly, DerivePath(pathHint, shelf, content), content,
                 KindOf(conceptType), cs.concepts, result, k)
  {
    DerivedTrim(pathHint, shelf, content);
    var path, fault;
    path, fault, k := FindPath(cs, DerivedStem(pathHint, shelf, content), content);
    if fault.Some? {
      return Err(fault.value), k;
    }
    var error := cs.Put(path, Concept(KindOf(conceptType), DeriveTitle(content), content));
    result := if error.Some? then Err(error.value) else Ok(path);
  }

  // ---------------------------------------------------------------------
  // What an add leaves alone, and what adding again does.

  /** No existing concept's text changes, spaces at its ends aside, and every concept
      but the one at the path returned stays as it is. */
  lemma AddKeepsBodies(before: map<string, Concept>, unreadable: set<string>, readOnly: bool, base: string,
                       content: string,
                       kind: string, after: map<string, Concept>, result: Result<string, StoreError>, k: nat, p: string)
    requires Adds(before, unreadable, readOnly, base, content, kind, after, result, k) && p in before
    ensures p in after && Trim(after[p].body) == Trim(before[p].body)
    ensures result != Ok(p) ==> after[p] == before[p]
  {
  }

  lemma FirstStopUnique(concepts: map<string, Concept>, unreadable: set<string>, base: string, content: string, j: nat,
                        k: nat)
    requires FirstStop(concepts, unreadable, base, content, j) && FirstStop(concepts, unreadable, base, content, k)
    ensures j == k
  {
  }

  /** The store after other writes: `writes` holds, for each path written, what the last
      write left there, or None where it removed the concept. */
  function Written(concepts: map<string, Concept>, writes: map<string, Option<Concept>>): map<string, Concept> {
    map p | p in concepts.Keys + writes.Keys && (p in writes ==> writes[p].Some?) ::
      if p in writes then writes[p].value else concepts[p]
  }

  /** A write that leaves the path to another content than this one: not freed, not given it. */
  predicate KeepsOther(written: Option<Concept>, content: string) {
    written.Some? && !SameContent(written.value, content)
  }

  /** What the writes did to the candidates: no earlier one was freed or given the content,
      and candidate `k`, if it can be read, was not given another. */
  ghost predicate Undisturbed(writes: map<string, Option<Concept>>, unreadable: set<string>, base: string,
                              content: string, k: nat)
  {
    && (forall j :: 1 <= j < k && Candidate(base, j) in writes ==> KeepsOther(writes[Candidate(base, j)], content))
    && (Candidate(base, k) in writes && Candidate(base, k) !in unreadable ==>
          !KeepsOther(writes[Candidate(base, k)], content))
  }

  /** The path an add ends at holds the content, is free or cannot be read, and the ones
      tried before it still hold others. */
  lemma AddStops(before: map<string, Concept>, unreadable: set<string>, readOnly: bool, base: string, content: string,
                 kind: string, after: map<string, Concept>, result: Result<string, StoreError>, k: nat, j: nat)
    requires Adds(before, unreadable, readOnly, base, content, kind, after, result, k) && 1 <= j <= k
    ensures StopsAt(after, unreadable, content, Candidate(base, j)) <==> Candidate(base, j) == Candidate(base, k)
  {
    if Candidate(base, j) != Candidate(base, k) {
      assert !StopsAt(before, unreadable, content, Candidate(base, j));
    }
  }

  lemma WrittenStops(concepts: map<string, Concept>, writes: map<string, Option<Concept>>, unreadable: set<string>,
                     content: string, p: string)
    ensures StopsAt(Written(concepts, writes), unreadable, content, p)
            <==> if p in unreadable then true
                 else if p in writes then !KeepsOther(writes[p], content)
                 else StopsAt(concepts, unreadable, content, p)
  {
  }

  /** A second add of the same content at the same derived path, with other writes in
      between: it ends where the first one did exactly when these writes neither freed nor
      gave the content to a path tried before, nor put other content at that path. */
  lemma AddAgain(stem: string, before: map<string, Concept>, unreadable: set<string>, readOnly: bool, content: string,
                 kind: string, after: map<string, Concept>, result: Result<string, StoreError>, k: nat,
                 writes: map<string, Option<Concept>>, again: string, later: map<string, Concept>,
                 second: Result<string, StoreError>, m: nat)
    requires TrimMd(stem + ".md") == stem
    requires Adds(before, unreadable, readOnly, stem + ".md", content, kind, after, result, k)
    requires Adds(Written(after, writes), unreadable, readOnly, stem + ".md", content, again, later, second, m)
    ensures m == k <==> Undisturbed(writes, unreadable, stem + ".md", content, k)
    ensures m == k ==> second == result
    ensures m == k && Candidate(stem + ".md", k) in Written(after, writes) ==> later.Keys == Written(after, writes).Keys
  {
    var base, between := stem + ".md", Written(after, writes);
    forall j | 1 <= j <= k
      ensures StopsAt(after, unreadable, content, Candidate(base, j)) <==> j == k
      ensures StopsAt(between, unreadable, content, Candidate(base, j))
              <==> if Candidate(base, j) in unreadable then true
                   else if Candidate(base, j) in writes then !KeepsOther(writes[Candidate(base, j)], content)
                   else j == k
    {
      if j < k {
        CandidatesDistinct(stem, j, k);
      }
      AddStops(before, unreadable, readOnly, base, content, kind, after, result, k, j);
      WrittenStops(after, writes, unreadable, content, Candidate(base, j));
    }
    if Undisturbed(writes, unreadable, base, content, k) {
      FirstStopUnique(between, unreadable, base, content, k, m);
    }
  }

  /** With nothing in between, the second add returns what the first did and changes
      nothing more. */
  lemma AddTwice(before: map<string, Concept>, unreadable: set<string>, readOnly: bool, base: string, content: string,
                 kind: string, after: map<string, Concept>, result: Result<string, StoreError>, k: nat,
                 later: map<string, Concept>, second: Result<string, StoreError>, m: nat)
    requires Adds(before, unreadable, readOnly, base, content, kind, after, result, k)
    requires Adds(after, unreadable, readOnly, base, content, kind, later, second, m)
    ensures m == k && second == result && later == after
  {
    assert FirstStop(after, unreadable, base, content, k) by {
      forall j | 1 <= j < k
        ensures !StopsAt(after, unreadable, content, Candidate(base, j))
      {
        assert !StopsAt(before, unreadable, content, Candidate(base, j));
        assert Candidate(base, j) != Candidate(base, k);
      }
    }
    FirstStopUnique(after, unreadable, base, content, k, m);
    if result.Ok? {
      assert after[result.value := Concept(kind, DeriveTitle(content), content)] == after;
    }
  }

  /** Two adds with the same arguments: one path, and no text in the store changes. */
  method DirectWriteTwice(cs: ConceptStore, content: string, pathHint: Option<string>, shelf: Option<string>,
                          conceptType: Option<string>)
    returns (first: Result<string, StoreError>, second: Result<string, StoreError>)
    modifies cs`concepts
    ensures second == first
    ensures cs.concepts.Keys == old(cs.concepts).Keys + (if first.Ok? then {first.value} else {})
    ensures forall p :: p in old(cs.concepts) ==> Trim(cs.concepts[p].body) == Trim(old(cs.concepts)[p].body)
    ensures forall p :: p in old(cs.concepts) && first != Ok(p) ==> cs.concepts[p] == old(cs.concepts)[p]
    ensures first.Ok? ==> cs.concepts[first.value] == Concept(KindOf(conceptType), DeriveTitle(content), content)
  {
    ghost var base, kind, before := DerivePath(pathHint, shelf, content), KindOf(conceptType), cs.concepts;
    var k, m;
    first, k := DirectWriteAdd(cs, content, pathHint, shelf, conceptType);
    ghost var after := cs.concepts;
    second, m := DirectWriteAdd(cs, content, pathHint, shelf, conceptType);
    AddTwice(before, cs.unreadable, cs.readOnly, base, content, kind, after, first, k, cs.concepts, second, m);
    forall p | p in before
      ensures p in after && Trim(after[p].body) == Trim(before[p].body) && (first != Ok(p) ==> after[p] == before[p])
    {
      AddKeepsBodies(before, cs.unreadable, cs.readOnly, base, content, kind, after, first, k, p);
    }
  }
}
