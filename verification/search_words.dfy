/** What the search indexes of a document: the words of its text, told by where they stand. */
module SearchWords {
  import opened Wrappers
  import opened Text
  import opened TextRuns
  import opened Search

  // ---------------------------------------------------------------------
  // Words.

  /** The words are the runs of two letters and digits or more. */
  ghost predicate AreWords(s: string, words: seq<string>) {
    AreRuns(s, 2, words)
  }

  lemma {:induction false} WordsAreRuns(s: string, word: string)
    ensures Words(s, word) == RunList(s, word, 2)
    decreases |s|
  {
    if s != "" {
      WordsAreRuns(s[1..], if IsAlnum(s[0]) then word + [s[0]] else "");
    }
  }

  /** A document's tokens are the words of its lowered text. */
  lemma TokensAreWords(text: string, lower: string -> string)
    ensures AreWords(lower(text), Tokenize(text, lower))
  {
    WordsAreRuns(lower(text), "");
    RunListed(lower(text), 2);
  }

  ghost predicate StandsIn(text: string, term: string) {
    exists p: Place :: IsRun(text, p, 2) && text[p.start..p.end] == term
  }

  lemma AmongWords(text: string, words: seq<string>, term: string)
    requires AreWords(text, words)
    ensures term in words <==> StandsIn(text, term)
  {
    var places :| PlacesFrom(text, 0, 2, places) && Reads(text, places, words);
    if term in words {
      var i :| 0 <= i < |words| && words[i] == term;
      assert IsRun(text, places[i], 2);
    }
    if StandsIn(text, term) {
      var p: Place :| IsRun(text, p, 2) && text[p.start..p.end] == term;
      assert p in places;
      var i :| 0 <= i < |places| && places[i] == p;
      assert words[i] == term;
    }
  }

  /** A term occurs in a document exactly when it stands as a word in its lowered text. */
  lemma OccursExact(doc: Document, term: string, lower: string -> string)
    ensures Tf(doc, term, lower) > 0 <==> StandsIn(lower(SearchableText(doc)), term)
  {
    TokensAreWords(SearchableText(doc), lower);
    AmongWords(lower(SearchableText(doc)), TokensOf(doc, lower), term);
  }

  // ---------------------------------------------------------------------
  // The text a document is searched by.

  /** The parts with one space between each two. */
  function Spaced(parts: seq<string>): string {
    if |parts| == 0 then ""
    else if |parts| == 1 then parts[0]
    else Spaced(parts[..|parts| - 1]) + " " + parts[|parts| - 1]
  }

  /** `front` is what stands before the history: whole lines, none of them `# History`
      with perhaps white space behind it, up to the first such line or the end. */
  ghost predicate IsFront(body: string, front: string) {
    exists k :: CutsAt(SplitInclusive(body), k, front)
  }

  ghost predicate CutsAt(lines: seq<string>, k: nat, front: string) {
    && k <= |lines| && front == Concat(lines[..k])
    && (forall i :: 0 <= i < k ==> TrimEnd(lines[i]) != "# History")
    && (k < |lines| ==> TrimEnd(lines[k]) == "# History")
  }

  lemma {:induction false} FrontCut(lines: seq<string>) returns (k: nat)
    ensures CutsAt(lines, k, BeforeHistory(lines))
  {
    if |lines| == 0 || TrimEnd(lines[0]) == "# History" {
      k := 0;
    } else {
      var rest := FrontCut(lines[1..]);
      k := rest + 1;
      assert lines[..k] == [lines[0]] + lines[1..][..rest];
    }
  }

  /** The fields of a document: its title, or its path without one, its description and
      its tags, if any, and its body before the history. */
  function FieldsOf(doc: Document, front: string): seq<string> {
    [if doc.title.None? then doc.path else doc.title.value]
    + (if doc.description.None? then [] else [doc.description.value])
    + doc.tags + [front]
  }

  lemma SpacedOne(parts: seq<string>, part: string)
    requires parts != []
    ensures Spaced(parts + [part]) == Spaced(parts) + " " + part
  {
    assert (parts + [part])[..|parts|] == parts;
  }

  lemma Joined(a: string, tag: string, b: string)
    ensures (a + " " + tag) + b == a + (" " + tag + b)
  {
  }

  lemma {:induction false} SpacedTags(parts: seq<string>, tags: seq<string>)
    requires parts != []
    ensures Spaced(parts + tags) == Spaced(parts) + TagText(tags)
    decreases |tags|
  {
    if |tags| == 0 {
      assert parts + tags == parts;
    } else {
      assert parts + tags == (parts + [tags[0]]) + tags[1..];
      SpacedOne(parts, tags[0]);
      SpacedTags(parts + [tags[0]], tags[1..]);
      Joined(Spaced(parts), tags[0], TagText(tags[1..]));
    }
  }

  /** The searched text is the fields with one space between each two. */
  lemma FieldsSearched(doc: Document)
    ensures exists front :: IsFront(doc.body, front) && SearchableText(doc) == Spaced(FieldsOf(doc, front))
  {
    var lines := SplitInclusive(doc.body);
    var k := FrontCut(lines);
    var front := BeforeHistory(lines);
    assert IsFront(doc.body, front);
    var head := [if doc.title.None? then doc.path else doc.title.value]
                + (if doc.description.None? then [] else [doc.description.value]);
    SpacedTags(head, doc.tags);
    SpacedOne(head + doc.tags, front);
    SpacedHead(doc, head);
  }

  lemma SpacedHead(doc: Document, head: seq<string>)
    requires head == [if doc.title.None? then doc.path else doc.title.value]
                     + (if doc.description.None? then [] else [doc.description.value])
    ensures Spaced(head) == TitleOf(doc) + (if doc.description.Some? then " " + doc.description.value else "")
  {
    if doc.description.Some? {
      assert head[..1] == [head[0]];
    }
  }

  lemma FrontUnique(body: string, one: string, other: string)
    requires IsFront(body, one) && IsFront(body, other)
    ensures one == other
  {
    var lines := SplitInclusive(body);
    var j :| CutsAt(lines, j, one);
    var k :| CutsAt(lines, k, other);
  }

  // ---------------------------------------------------------------------
  // No word runs from one field into the next.

  lemma {:induction false} WordsApart(a: string, b: string, word: string)
    ensures Words(a + " " + b, word) == Words(a, word) + Words(b, "")
    decreases |a|
  {
    var s := a + " " + b;
    if a == "" {
      assert s == " " + b && s[1..] == b;
    } else {
      assert s[0] == a[0] && s[1..] == a[1..] + " " + b;
      if IsAlnum(a[0]) {
        WordsApart(a[1..], b, word + [a[0]]);
      } else {
        WordsApart(a[1..], b, "");
      }
    }
  }

  ghost predicate KeepsSpaces(lower: string -> string) {
    forall a, b :: Apart(lower, a, b)
  }

  predicate Apart(lower: string -> string, a: string, b: string) {
    lower(a + " " + b) == lower(a) + " " + lower(b)
  }

  /** The words of each part, one part after the other. */
  function WordsOfEach(parts: seq<string>, lower: string -> string): seq<string> {
    if |parts| == 0 then []
    else WordsOfEach(parts[..|parts| - 1], lower) + Tokenize(parts[|parts| - 1], lower)
  }

  lemma {:induction false} SpacedWords(parts: seq<string>, lower: string -> string)
    requires KeepsSpaces(lower) && parts != []
    ensures Tokenize(Spaced(parts), lower) == WordsOfEach(parts, lower)
  {
    var front, last := parts[..|parts| - 1], parts[|parts| - 1];
    if |parts| > 1 {
      SpacedWords(front, lower);
      assert Apart(lower, Spaced(front), last);
      WordsApart(lower(Spaced(front)), lower(last), "");
    } else {
      assert front == [] && WordsOfEach([], lower) == [];
    }
  }

  /** Each field is indexed word by word, on its own, if lowering leaves a space alone. */
  lemma FieldsIndexed(doc: Document, lower: string -> string, front: string)
    requires KeepsSpaces(lower) && IsFront(doc.body, front)
    ensures TokensOf(doc, lower) == WordsOfEach(FieldsOf(doc, front), lower)
  {
    FieldsSearched(doc);
    var cut :| IsFront(doc.body, cut) && SearchableText(doc) == Spaced(FieldsOf(doc, cut));
    FrontUnique(doc.body, cut, front);
    SpacedWords(FieldsOf(doc, front), lower);
  }
}
