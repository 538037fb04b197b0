/** Fetching the relationships of a lookup in chunks that can be fetched again later, from a cache
    or, when they have been evicted, from the datastore. */
module ChunkProducer {
  import opened Common
  import opened Caveats
  import opened Tuples
  import CaveatRunner
  import opened CursoredIterators
  import opened Resumption

  /** What identifies a relationship, and all of it that a cursor keeps. */
  datatype Reference = Reference(resource: ObjectAndRelation, subject: ObjectAndRelation)

  function ReferenceOf(r: Relationship): Reference {
    Reference(r.resource, r.subject)
  }

  /** The relationships of a query at a fixed snapshot, in the order of the query, and what the
      context of the request makes of their caveats. */
  datatype Source = Source(
    relationships: seq<Relationship>,
    rank: Reference -> int,
    outcomes: Caveat -> CaveatRunner.Outcome,
    chunkSize: nat)
  {
    ghost predicate Sorted() {
      forall i, j | 0 <= i < j < |relationships| ::
          rank(ReferenceOf(relationships[i])) < rank(ReferenceOf(relationships[j]))
    }
  }

  /** A relationship that may apply, with the context parameters its caveat misses. */
  datatype Found = Found(relationship: Relationship, missing: set<string>)

  function Verdict(source: Source, r: Relationship): Option<set<string>> {
    if r.caveat.None? || r.caveat.value.name == "" then Some({})
    else
      match source.outcomes(r.caveat.value)
      case Known(applies) => if applies then Some({}) else None
      case Partial(missing) => Some(missing)
  }

  /** Some way to fill in what the context leaves open makes the caveat of the relationship true. */
  ghost predicate MayApply(source: Source, r: Relationship) {
    exists a: Assignment :: CaveatRunner.Completes(a, source.outcomes) && Holds(CaveatAsExpr(r.caveat), a)
  }

  /** What the caveat of the relationship misses; one without a name counts as none. */
  ghost function MissingFor(source: Source, r: Relationship): set<string> {
    if r.caveat.None? || r.caveat.value.name == "" then {}
    else CaveatRunner.Missing([CaveatRunner.Kleene(Leaf(r.caveat.value), source.outcomes)])
  }

  ghost predicate Unnamed(r: Relationship) {
    r.caveat.Some? && r.caveat.value.name == ""
  }

  /** A relationship is kept exactly when its caveat may apply, with the parameters that are missing. */
  lemma VerdictMeans(source: Source, r: Relationship)
    ensures Verdict(source, r).Some? <==> Unnamed(r) || MayApply(source, r)
    ensures Verdict(source, r).Some? ==> Verdict(source, r).value == MissingFor(source, r)
  {
    var best: Assignment := iset c: Caveat | source.outcomes(c) != CaveatRunner.Known(false);
    assert CaveatRunner.Completes(best, source.outcomes);
    if r.caveat.Some? {
      var outcome := source.outcomes(r.caveat.value);
      assert CaveatRunner.Missing([outcome]) == if outcome.Partial? then outcome.missing else {} by {
        assert [outcome][0] == outcome;
        CaveatRunner.MissingSnoc([], outcome);
        assert [] + [outcome] == [outcome];
      }
    }
  }

  function After(source: Source, relationships: seq<Relationship>, cursor: Option<Reference>): seq<Relationship> {
    if cursor.None? || relationships == [] then relationships
    else if source.rank(ReferenceOf(relationships[0])) > source.rank(cursor.value) then relationships
    else After(source, relationships[1..], cursor)
  }

  /** The datastore query: everything after the cursor, in order. */
  function Query(source: Source, cursor: Option<Reference>): seq<Relationship> {
    After(source, source.relationships, cursor)
  }

  ghost function Applying(source: Source, relationships: seq<Relationship>): seq<Found> {
    if relationships == [] then []
    else
      var last := relationships[|relationships| - 1];
      Applying(source, relationships[..|relationships| - 1]) +
      if Verdict(source, last).Some? then [Found(last, Verdict(source, last).value)] else []
  }

  // ---- How what is found is split into chunks.

  ghost function ResourceIDs(found: seq<Found>): set<string> {
    set f <- found :: f.relationship.resource.objectID
  }

  /** The chunks that are full, and what has been collected since. */
  datatype Grouping = Grouping(full: seq<seq<Found>>, open: seq<Found>)

  ghost function Grouped(found: seq<Found>, size: nat): Grouping {
    if found == [] then Grouping([], [])
    else
      var before := Grouped(found[..|found| - 1], size);
      var open := before.open + [found[|found| - 1]];
      if |ResourceIDs(open)| >= size then Grouping(before.full + [open], []) else Grouping(before.full, open)
  }

  ghost function Groups(found: seq<Found>, size: nat): seq<seq<Found>> {
    var g := Grouped(found, size);
    g.full + if g.open == [] then [] else [g.open]
  }

  ghost function Flat(groups: seq<seq<Found>>): seq<Found> {
    if groups == [] then [] else Flat(groups[..|groups| - 1]) + groups[|groups| - 1]
  }

  lemma FlatSnoc(groups: seq<seq<Found>>, group: seq<Found>)
    ensures Flat(groups + [group]) == Flat(groups) + group
  {
  }

  lemma {:induction false} GroupedFlat(found: seq<Found>, size: nat)
    ensures Flat(Grouped(found, size).full) + Grouped(found, size).open == found
  {
    if found != [] {
      var front, last := found[..|found| - 1], found[|found| - 1];
      GroupedFlat(front, size);
      var before := Grouped(front, size);
      FlatSnoc(before.full, before.open + [last]);
      calc {
        Flat(Grouped(found, size).full) + Grouped(found, size).open;
        Flat(before.full) + (before.open + [last]);
        (Flat(before.full) + before.open) + [last];
        found;
      }
    }
  }

  /** The chunks together are everything found, in order. */
  lemma GroupsAreAll(found: seq<Found>, size: nat)
    ensures Flat(Groups(found, size)) == found
  {
    GroupedFlat(found, size);
    var g := Grouped(found, size);
    if g.open == [] {
      assert Groups(found, size) == g.full;
    } else {
      FlatSnoc(g.full, g.open);
    }
  }

  lemma OneMoreResource(found: seq<Found>, f: Found)
    ensures ResourceIDs(found + [f]) == ResourceIDs(found) + {f.relationship.resource.objectID}
    ensures |ResourceIDs(found)| <= |ResourceIDs(found + [f])| <= |ResourceIDs(found)| + 1
  {
    var more := found + [f];
    assert forall x :: x in more <==> x in found || x == f;
    assert ResourceIDs(more) == ResourceIDs(found) + {f.relationship.resource.objectID};
    if f.relationship.resource.objectID in ResourceIDs(found) {
      assert ResourceIDs(more) == ResourceIDs(found);
    }
  }

  ghost predicate FullGroup(group: seq<Found>, size: nat) {
    group != [] && |ResourceIDs(group)| == if size == 0 then 1 else size
  }

  lemma {:induction false} GroupedSizes(found: seq<Found>, size: nat)
    ensures forall group <- Grouped(found, size).full :: FullGroup(group, size)
    ensures Grouped(found, size).open == [] || |ResourceIDs(Grouped(found, size).open)| < size
  {
    if found != [] {
      var front, last := found[..|found| - 1], found[|found| - 1];
      GroupedSizes(front, size);
      var open := Grouped(front, size).open;
      OneMoreResource(open, last);
      assert last.relationship.resource.objectID in ResourceIDs(open + [last]);
      assert open == [] ==> |ResourceIDs(open)| == 0;
      assert |ResourceIDs(open + [last])| > 0;
    }
  }

  /** Every chunk but the last has exactly as many distinct resources as a chunk may have, and the
      last no more. */
  lemma ChunkSizes(found: seq<Found>, size: nat, j: nat)
    requires size > 0 && j < |Groups(found, size)|
    ensures Groups(found, size)[j] != [] && |ResourceIDs(Groups(found, size)[j])| <= size
    ensures j < |Groups(found, size)| - 1 ==> |ResourceIDs(Groups(found, size)[j])| == size
  {
    GroupedSizes(found, size);
    var full := Grouped(found, size).full;
    if j < |full| {
      assert full[j] in full && Groups(found, size)[j] == full[j];
    }
  }

  /** Splitting starts afresh after a full chunk. */
  lemma {:induction false} GroupedAppend(found: seq<Found>, more: seq<Found>, size: nat)
    requires Grouped(found, size).open == []
    ensures Grouped(found + more, size) ==
            Grouping(Grouped(found, size).full + Grouped(more, size).full, Grouped(more, size).open)
    decreases |more|
  {
    if more == [] {
      assert found + more == found;
    } else {
      var front := more[..|more| - 1];
      GroupedAppend(found, front, size);
      assert (found + more)[..|found + more| - 1] == found + front;
    }
  }

  /** The first full chunk is complete when its last relationship is found. */
  lemma {:induction false} FirstGroup(found: seq<Found>, size: nat)
    requires Grouped(found, size).full != []
    ensures var first := Grouped(found, size).full[0]; first <= found && Grouped(first, size) == Grouping([first], [])
  {
    var front := found[..|found| - 1];
    if Grouped(front, size).full != [] {
      FirstGroup(front, size);
    } else {
      GroupedFlat(front, size);
      assert found == Grouped(found, size).full[0];
    }
  }

  /** What is found after the first chunk is split just like the rest of the chunks. */
  lemma GroupsAfterFirst(found: seq<Found>, size: nat)
    requires found != []
    ensures var groups := Groups(found, size);
            groups != [] && groups[0] != [] && groups[0] <= found && Groups(found[|groups[0]|..], size) == groups[1..]
  {
    var g := Grouped(found, size);
    GroupedFlat(found, size);
    if g.full == [] {
      assert g.open == found && Groups(found, size) == [found];
      assert found[|found|..] == [];
    } else {
      FirstGroup(found, size);
      var first := g.full[0];
      assert first != [] by {
        GroupedSizes(found, size);
        assert first in g.full;
      }
      AfterFullGroup(found, size, first);
    }
  }

  lemma AfterFullGroup(found: seq<Found>, size: nat, first: seq<Found>)
    requires first <= found && Grouped(first, size) == Grouping([first], [])
    ensures Groups(found, size)[0] == first && Groups(found, size)[1..] == Groups(found[|first|..], size)
  {
    var rest := found[|first|..];
    GroupedAppend(first, rest, size);
    assert first + rest == found;
    assert Groups(found, size) == [first] + Groups(rest, size);
  }

  // ---- Cursors.

  lemma {:induction false} AfterElement(source: Source, relationships: seq<Relationship>, i: nat)
    requires i < |relationships|
    requires forall k, j | 0 <= k < j < |relationships| ::
             source.rank(ReferenceOf(relationships[k])) < source.rank(ReferenceOf(relationships[j]))
    ensures After(source, relationships, Some(ReferenceOf(relationships[i]))) == relationships[i + 1..]
    decreases |relationships|
  {
    if i == 0 {
      var rest := relationships[1..];
      if rest != [] {
        assert rest[0] == relationships[1];
      }
    } else {
      AfterElement(source, relationships[1..], i - 1);
      assert relationships[1..][i - 1] == relationships[i];
      assert relationships[1..][i - 1 + 1..] == relationships[i + 1..];
    }
  }

  /** A query returns a final stretch of the relationships. */
  lemma {:induction false} AfterIsSuffix(source: Source, relationships: seq<Relationship>, cursor: Option<Reference>)
    returns (n: nat)
    ensures n <= |relationships| && After(source, relationships, cursor) == relationships[n..]
    decreases |relationships|
  {
    if After(source, relationships, cursor) == relationships {
      n := 0;
    } else {
      n := AfterIsSuffix(source, relationships[1..], cursor);
      assert relationships[1..][n..] == relationships[n + 1..];
      n := n + 1;
    }
  }

  lemma {:induction false} ApplyingConcat(source: Source, xs: seq<Relationship>, ys: seq<Relationship>)
    ensures Applying(source, xs + ys) == Applying(source, xs) + Applying(source, ys)
    decreases |ys|
  {
    if ys == [] {
      assert xs + ys == xs;
    } else {
      ApplyingConcat(source, xs, ys[..|ys| - 1]);
      assert (xs + ys)[..|xs + ys| - 1] == xs + ys[..|ys| - 1];
    }
  }

  /** Where the n-th relationship that applies stands. */
  lemma {:induction false} ApplyingIndex(source: Source, relationships: seq<Relationship>, n: nat) returns (i: nat)
    requires n < |Applying(source, relationships)|
    ensures i < |relationships| && Applying(source, relationships)[n].relationship == relationships[i]
    ensures Applying(source, relationships[..i + 1]) == Applying(source, relationships)[..n + 1]
    decreases |relationships|
  {
    var front := relationships[..|relationships| - 1];
    if n < |Applying(source, front)| {
      i := ApplyingIndex(source, front, n);
      assert relationships[..i + 1] == front[..i + 1];
    } else {
      i := |relationships| - 1;
      assert relationships[..i + 1] == relationships;
    }
  }

  ghost function FoundFrom(source: Source, cursor: Option<Reference>): seq<Found> {
    Applying(source, Query(source, cursor))
  }

  /** Querying after a relationship that was found finds exactly what was found after it. */
  lemma FoundAfter(source: Source, cursor: Option<Reference>, n: nat)
    requires source.Sorted() && n < |FoundFrom(source, cursor)|
    ensures FoundFrom(source, Some(ReferenceOf(FoundFrom(source, cursor)[n].relationship))) ==
            FoundFrom(source, cursor)[n + 1..]
  {
    var all := source.relationships;
    var start := AfterIsSuffix(source, all, cursor);
    var i := ApplyingIndex(source, all[start..], n);
    QueryAfter(source, start, i);
    ApplyingRest(source, all[start..], i, n);
  }

  lemma QueryAfter(source: Source, start: nat, i: nat)
    requires source.Sorted() && start <= |source.relationships| && i < |source.relationships[start..]|
    ensures Query(source, Some(ReferenceOf(source.relationships[start..][i]))) == source.relationships[start..][i + 1..]
  {
    AfterElement(source, source.relationships, start + i);
    assert source.relationships[start + i + 1..] == source.relationships[start..][i + 1..];
  }

  lemma ApplyingRest(source: Source, relationships: seq<Relationship>, i: nat, n: nat)
    requires i < |relationships| && n < |Applying(source, relationships)|
    requires Applying(source, relationships[..i + 1]) == Applying(source, relationships)[..n + 1]
    ensures Applying(source, relationships[i + 1..]) == Applying(source, relationships)[n + 1..]
  {
    ApplyingConcat(source, relationships[..i + 1], relationships[i + 1..]);
    assert relationships == relationships[..i + 1] + relationships[i + 1..];
  }

  ghost function ChunksFrom(source: Source, cursor: Option<Reference>): seq<seq<Found>> {
    Groups(FoundFrom(source, cursor), source.chunkSize)
  }

  /** The relationship comes after the cursor in the order of the query. */
  ghost predicate Behind(source: Source, cursor: Option<Reference>, r: Relationship) {
    cursor.None? || source.rank(ReferenceOf(r)) > source.rank(cursor.value)
  }

  /** Without a cursor a query returns everything, and with one exactly what is ranked above it. */
  lemma {:induction false} QueryExactly(source: Source, cursor: Option<Reference>)
    requires source.Sorted()
    ensures Query(source, None) == source.relationships
    ensures forall r :: r in Query(source, cursor) <==> r in source.relationships && Behind(source, cursor, r)
  {
    if cursor.Some? {
      AfterExactly(source, source.relationships, cursor);
    }
  }

  lemma {:induction false} AfterExactly(source: Source, relationships: seq<Relationship>, cursor: Option<Reference>)
    requires forall i, j | 0 <= i < j < |relationships| ::
             source.rank(ReferenceOf(relationships[i])) < source.rank(ReferenceOf(relationships[j]))
    ensures forall r :: r in After(source, relationships, cursor) <==> r in relationships && Behind(source, cursor, r)
    decreases |relationships|
  {
    if relationships != [] && !Behind(source, cursor, relationships[0]) {
      AfterExactly(source, relationships[1..], cursor);
      assert forall r :: r in relationships <==> r == relationships[0] || r in relationships[1..];
    }
  }

  lemma {:induction false} ApplyingExactly(source: Source, relationships: seq<Relationship>, f: Found)
    ensures f in Applying(source, relationships) <==>
            && f.relationship in relationships && (Unnamed(f.relationship) || MayApply(source, f.relationship))
            && f.missing == MissingFor(source, f.relationship)
    decreases |relationships|
  {
    if relationships != [] {
      var front, last := relationships[..|relationships| - 1], relationships[|relationships| - 1];
      ApplyingExactly(source, front, f);
      VerdictMeans(source, last);
      assert forall r :: r in relationships <==> r in front || r == last by {
        assert relationships == front + [last];
      }
    }
  }

  /** A relationship after the cursor whose caveat may apply, with the context parameters it misses. */
  ghost predicate ToFind(source: Source, cursor: Option<Reference>, f: Found) {
    && f.relationship in source.relationships && Behind(source, cursor, f.relationship)
    && (Unnamed(f.relationship) || MayApply(source, f.relationship))
    && f.missing == MissingFor(source, f.relationship)
  }

  ghost predicate InOrder(source: Source, found: seq<Found>) {
    forall m, n | 0 <= m < n < |found| ::
      source.rank(ReferenceOf(found[m].relationship)) < source.rank(ReferenceOf(found[n].relationship))
  }

  lemma FoundExactly(source: Source, cursor: Option<Reference>, f: Found)
    requires source.Sorted()
    ensures f in FoundFrom(source, cursor) <==> ToFind(source, cursor, f)
  {
    QueryExactly(source, cursor);
    ApplyingExactly(source, Query(source, cursor), f);
  }

  /** The relationships found keep the order of the query. */
  lemma FoundInOrder(source: Source, cursor: Option<Reference>)
    requires source.Sorted()
    ensures InOrder(source, FoundFrom(source, cursor))
  {
    var found := FoundFrom(source, cursor);
    forall m, n | 0 <= m < n < |found|
      ensures source.rank(ReferenceOf(found[m].relationship)) < source.rank(ReferenceOf(found[n].relationship))
    {
      FoundAfter(source, cursor, m);
      var next := Some(ReferenceOf(found[m].relationship));
      assert found[m + 1..][n - m - 1] == found[n] && found[n] in FoundFrom(source, next);
      FoundExactly(source, next, found[n]);
    }
  }

  /** The chunks list, in the order of the query, exactly the relationships after the cursor whose caveat
      may apply, each with the context parameters it misses. */
  lemma ChunksListExactly(source: Source, cursor: Option<Reference>)
    requires source.Sorted()
    ensures forall f :: f in Flat(ChunksFrom(source, cursor)) <==> ToFind(source, cursor, f)
    ensures InOrder(source, Flat(ChunksFrom(source, cursor)))
  {
    GroupsAreAll(FoundFrom(source, cursor), source.chunkSize);
    FoundInOrder(source, cursor);
    forall f ensures f in FoundFrom(source, cursor) <==> ToFind(source, cursor, f) {
      FoundExactly(source, cursor, f);
    }
  }

  /** Continuing after the last relationship of the first chunk gives the other chunks. */
  lemma ChunksAfterFirst(source: Source, cursor: Option<Reference>)
    requires source.Sorted() && FoundFrom(source, cursor) != []
    ensures var chunks := ChunksFrom(source, cursor);
            && chunks != [] && chunks[0] != []
            && ChunksFrom(source, Some(ReferenceOf(chunks[0][|chunks[0]| - 1].relationship))) == chunks[1..]
  {
    var found := FoundFrom(source, cursor);
    GroupsAfterFirst(found, source.chunkSize);
    FoundAfter(source, cursor, |ChunksFrom(source, cursor)[0]| - 1);
  }

  // ---- The contents of a chunk.

  /** For each resource the subjects found for it, with the context parameters missed. */
  type Subjects = map<string, map<string, set<string>>>

  function AddTo(subjects: Subjects, f: Found): Subjects {
    var resourceID, subjectID := f.relationship.resource.objectID, f.relationship.subject.objectID;
    var found := if resourceID in subjects then subjects[resourceID] else map[];
    var missing := if subjectID in found then found[subjectID] else {};
    subjects[resourceID := found[subjectID := missing + f.missing]]
  }

  ghost function Collect(found: seq<Found>): Subjects {
    if found == [] then map[] else AddTo(Collect(found[..|found| - 1]), found[|found| - 1])
  }

  ghost predicate Between(f: Found, resourceID: string, subjectID: string) {
    f.relationship.resource.objectID == resourceID && f.relationship.subject.objectID == subjectID
  }

  ghost function Lookup(subjects: Subjects, resourceID: string, subjectID: string): Option<set<string>> {
    if resourceID in subjects && subjectID in subjects[resourceID] then Some(subjects[resourceID][subjectID]) else None
  }

  lemma AddToLookup(subjects: Subjects, f: Found, resourceID: string, subjectID: string)
    ensures var before := Lookup(subjects, resourceID, subjectID);
            Lookup(AddTo(subjects, f), resourceID, subjectID) ==
            if Between(f, resourceID, subjectID) then Some((if before.Some? then before.value else {}) + f.missing)
                else before
    ensures AddTo(subjects, f).Keys == subjects.Keys + {f.relationship.resource.objectID}
  {
  }

  /** A chunk lists a subject for a resource exactly when a relationship between them was found,
      and with it every parameter that some such relationship misses. */
  lemma {:induction false} CollectMeans(found: seq<Found>, resourceID: string, subjectID: string, name: string)
    ensures var listed := Lookup(Collect(found), resourceID, subjectID);
            && (listed.Some? <==> exists f <- found :: Between(f, resourceID, subjectID))
            && (listed.Some? ==> (name in listed.value <==>
                                  exists f <- found :: Between(f, resourceID, subjectID) && name in f.missing))
  {
    if found != [] {
      var front, last := found[..|found| - 1], found[|found| - 1];
      CollectMeans(front, resourceID, subjectID, name);
      AddToLookup(Collect(front), last, resourceID, subjectID);
      assert forall f :: f in found <==> f in front || f == last by {
        assert found == front + [last];
      }
    }
  }

  lemma {:induction false} CollectKeys(found: seq<Found>)
    ensures Collect(found).Keys == ResourceIDs(found) && |Collect(found)| == |ResourceIDs(found)|
  {
    if found != [] {
      var front, last := found[..|found| - 1], found[|found| - 1];
      CollectKeys(front);
      AddToLookup(Collect(front), last, "", "");
      OneMoreResource(front, last);
      assert found == front + [last];
    }
    assert |Collect(found)| == |Collect(found).Keys|;
  }

  datatype DatastoreIndex = DatastoreIndex(dbCursor: Option<Reference>, chunkID: Option<nat>)

  datatype ChunkView = ChunkView(uniqueID: nat, dbCursor: Option<Reference>, final: Option<Relationship>,
                                 subjects: Subjects)

  class RelationshipsChunk {
    const uniqueID: nat
    const dbCursor: Option<Reference>
    var final: Option<Relationship>
    var subjects: Subjects
    ghost var found: seq<Found>

    constructor (uniqueID: nat, dbCursor: Option<Reference>)
      ensures Valid() && found == [] && this.uniqueID == uniqueID && this.dbCursor == dbCursor
    {
      this.uniqueID, this.dbCursor, final, subjects, found := uniqueID, dbCursor, None, map[], [];
    }

    ghost predicate Valid()
      reads this
    {
      subjects == Collect(found) && final == if found == [] then None else Some(found[|found| - 1].relationship)
    }

    function View(): ChunkView
      reads this
    {
      ChunkView(uniqueID, dbCursor, final, subjects)
    }

    method AddRelationship(r: Relationship, missing: set<string>) returns (count: nat)
      requires Valid()
      modifies this
      ensures Valid() && found == old(found) + [Found(r, missing)] && count == |ResourceIDs(found)|
    {
      var f := Found(r, missing);
      subjects := AddTo(subjects, f);
      final := Some(r);
      found := found + [f];
      assert found[..|found| - 1] == old(found);
      CollectKeys(found);
      count := |subjects|;
    }

    method IsPopulated() returns (populated: bool)
      requires Valid()
      ensures populated <==> found != []
    {
      CollectKeys(found);
      if found != [] {
        assert found[0].relationship.resource.objectID in ResourceIDs(found);
      }
      populated := |subjects| > 0;
    }
  }

  // ---- The producer and its cache.

  ghost function LastOf(group: seq<Found>): Option<Reference> {
    if group == [] then None else Some(ReferenceOf(group[|group| - 1].relationship))
  }

  /** The cursor after which chunk `j` starts. */
  ghost function StartOf(cursor: Option<Reference>, chunks: seq<seq<Found>>, j: nat): Option<Reference>
    requires j <= |chunks|
  {
    if j == 0 then cursor else LastOf(chunks[j - 1])
  }

  /** Starting where a chunk starts gives that chunk and those after it. */
  lemma {:induction false} ChunksAt(source: Source, cursor: Option<Reference>, j: nat)
    requires source.Sorted() && j <= |ChunksFrom(source, cursor)|
    ensures ChunksFrom(source, StartOf(cursor, ChunksFrom(source, cursor), j)) == ChunksFrom(source, cursor)[j..]
    decreases j
  {
    if j > 0 {
      var chunks := ChunksFrom(source, cursor);
      ChunksAfterFirst(source, cursor);
      var rest := ChunksFrom(source, LastOf(chunks[0]));
      ChunksAt(source, LastOf(chunks[0]), j - 1);
      assert j > 1 ==> rest[j - 2] == chunks[j - 1];
      assert rest[j - 1..] == chunks[j..];
    }
  }

  /** The chunk is the first one that starts after its cursor. */
  ghost predicate Genuine(source: Source, chunk: ChunkView) {
    && ChunksFrom(source, chunk.dbCursor) != []
    && var first := ChunksFrom(source, chunk.dbCursor)[0];
       first != [] && chunk.subjects == Collect(first) && chunk.final == Some(first[|first| - 1].relationship)
  }

  /** The id of the index was given out with the index's cursor. */
  ghost predicate Issued(issued: map<nat, Option<Reference>>, index: DatastoreIndex) {
    index.chunkID.Some? && index.chunkID.value in issued && issued[index.chunkID.value] == index.dbCursor
  }

  /** If the id was given out here at all, then with this cursor: ids are not used twice, and one
      that comes from elsewhere is not in the cache. */
  ghost predicate Known(issued: map<nat, Option<Reference>>, index: DatastoreIndex) {
    index.chunkID.Some? && index.chunkID.value in issued ==> issued[index.chunkID.value] == index.dbCursor
  }

  /** The chunks made for a cursor: the right contents, each with an index from which just this
      chunk and the later ones are made again. */
  ghost predicate Serves(source: Source, issued: map<nat, Option<Reference>>, chunks: seq<seq<Found>>,
                         pieces: seq<(Subjects, DatastoreIndex)>) {
    && |pieces| <= |chunks|
    && forall j | 0 <= j < |pieces| ::
         && pieces[j].0 == Collect(chunks[j])
         && Issued(issued, pieces[j].1) && ChunksFrom(source, pieces[j].1.dbCursor) == chunks[j..]
  }

  lemma ServesMore(source: Source, issued: map<nat, Option<Reference>>, issued': map<nat, Option<Reference>>,
                   chunks: seq<seq<Found>>, pieces: seq<(Subjects, DatastoreIndex)>, piece: (Subjects, DatastoreIndex))
    requires Serves(source, issued, chunks, pieces) && |pieces| < |chunks|
    requires forall id <- issued :: id in issued' && issued'[id] == issued[id]
    requires piece.0 == Collect(chunks[|pieces|]) && Issued(issued', piece.1)
    requires ChunksFrom(source, piece.1.dbCursor) == chunks[|pieces|..]
    ensures Serves(source, issued', chunks, pieces + [piece])
  {
  }

  lemma {:induction false} GroupedGrows(found: seq<Found>, n: nat, size: nat)
    requires n <= |found|
    ensures Grouped(found[..n], size).full <= Grouped(found, size).full
    decreases |found|
  {
    if n == |found| {
      assert found[..n] == found;
    } else {
      var front := found[..|found| - 1];
      GroupedGrows(front, n, size);
      assert front[..n] == found[..n];
    }
  }

  ghost predicate Keeps(before: map<nat, Option<Reference>>, after: map<nat, Option<Reference>>) {
    forall id <- before :: id in after && after[id] == before[id]
  }

  function AsChunks(pieces: seq<(Subjects, DatastoreIndex)>): seq<ChunkOrHold<Subjects, DatastoreIndex>> {
    seq(|pieces|, j requires 0 <= j < |pieces| => Chunk(pieces[j].0, pieces[j].1))
  }

  lemma {:induction false} PiecesConcat(xs: seq<ChunkOrHold<Subjects, DatastoreIndex>>,
                                        ys: seq<ChunkOrHold<Subjects, DatastoreIndex>>)
    ensures Pieces(xs + ys) == Pieces(xs) + Pieces(ys)
  {
    if xs == [] {
      assert xs + ys == ys;
    } else {
      PiecesConcat(xs[1..], ys);
      assert (xs + ys)[1..] == xs[1..] + ys;
    }
  }

  lemma {:induction false} PiecesOfChunks(pieces: seq<(Subjects, DatastoreIndex)>)
    ensures Pieces(AsChunks(pieces)) == pieces
  {
    if pieces != [] {
      PiecesOfChunks(pieces[1..]);
      assert AsChunks(pieces)[1..] == AsChunks(pieces[1..]);
      assert pieces == [pieces[0]] + pieces[1..];
    }
  }

  lemma NoHolds(pieces: seq<(Subjects, DatastoreIndex)>)
    ensures HoldForMappingComplete !in AsChunks(pieces)
  {
  }

  lemma HoldsOf(first: seq<ChunkOrHold<Subjects, DatastoreIndex>>, pieces: seq<(Subjects, DatastoreIndex)>)
    ensures var all := first + AsChunks(pieces);
            && (HoldForMappingComplete in all <==> HoldForMappingComplete in first)
            && forall h | 0 <= h < |all| && all[h].HoldForMappingComplete? :: h < |first| && first[h] == all[h]
  {
    NoHolds(pieces);
  }

  lemma OutputPieces(subjects: Subjects, index: DatastoreIndex, first: seq<ChunkOrHold<Subjects, DatastoreIndex>>,
                     pieces: seq<(Subjects, DatastoreIndex)>)
    requires first == [Chunk(subjects, index)] || first == [Chunk(subjects, index), HoldForMappingComplete]
    ensures Pieces(first + AsChunks(pieces)) == [(subjects, index)] + pieces
    ensures var all := first + AsChunks(pieces);
            && all[0] == Chunk(subjects, index) && (HoldForMappingComplete in all <==> |first| == 2)
            && forall h | 0 <= h < |all| && all[h].HoldForMappingComplete? :: h == 1
  {
    HoldsOf(first, pieces);
    PiecesOfChunks(pieces);
    PiecesConcat(first, AsChunks(pieces));
    assert Pieces(first[1..]) == [];
  }

  /** After `i` relationships `n` chunks are full and `open` has been collected since. */
  ghost predicate Filling(source: Source, cursor: Option<Reference>, i: nat, n: nat, open: seq<Found>,
                          start: Option<Reference>) {
    && i <= |Query(source, cursor)|
    && var g := Grouped(Applying(source, Query(source, cursor)[..i]), source.chunkSize);
       && |g.full| == n && g.open == open && g.full <= ChunksFrom(source, cursor)
       && start == StartOf(cursor, ChunksFrom(source, cursor), n)
  }

  lemma FillStep(source: Source, cursor: Option<Reference>, i: nat, n: nat, open: seq<Found>, start: Option<Reference>)
    requires Filling(source, cursor, i, n, open, start) && i < |Query(source, cursor)|
    ensures var r := Query(source, cursor)[i];
            match Verdict(source, r)
            case None => Filling(source, cursor, i + 1, n, open, start)
            case Some(missing) =>
              var more := open + [Found(r, missing)];
              if |ResourceIDs(more)| >= source.chunkSize then
                n < |ChunksFrom(source, cursor)| && ChunksFrom(source, cursor)[n] == more &&
                Filling(source, cursor, i + 1, n + 1, [], Some(ReferenceOf(r)))
              else Filling(source, cursor, i + 1, n, more, start)
  {
    var relationships := Query(source, cursor);
    var all := Applying(source, relationships);
    var found := Applying(source, relationships[..i + 1]);
    assert relationships[..i + 1][..i] == relationships[..i];
    ApplyingConcat(source, relationships[..i + 1], relationships[i + 1..]);
    assert relationships == relationships[..i + 1] + relationships[i + 1..];
    assert found == all[..|found|];
    GroupedGrows(all, |found|, source.chunkSize);
    FillStepGroup(source, cursor, i, n, open);
  }

  lemma FillStepGroup(source: Source, cursor: Option<Reference>, i: nat, n: nat, open: seq<Found>)
    requires i < |Query(source, cursor)|
    requires var g := Grouped(Applying(source, Query(source, cursor)[..i]), source.chunkSize);
             |g.full| == n && g.open == open
    ensures var r := Query(source, cursor)[i];
            var g := Grouped(Applying(source, Query(source, cursor)[..i]), source.chunkSize);
            var g' := Grouped(Applying(source, Query(source, cursor)[..i + 1]), source.chunkSize);
            match Verdict(source, r)
            case None => g' == g
            case Some(missing) =>
              var more := open + [Found(r, missing)];
              g' == if |ResourceIDs(more)| >= source.chunkSize then Grouping(g.full + [more], [])
                  else Grouping(g.full, more)
  {
    var relationships := Query(source, cursor);
    assert relationships[..i + 1][..i] == relationships[..i];
    var before, after := Applying(source, relationships[..i]), Applying(source, relationships[..i + 1]);
    if Verdict(source, relationships[i]).Some? {
      assert after[..|after| - 1] == before;
    } else {
      assert after == before;
    }
  }

  /** What was collected is all there is once every relationship has been seen. */
  lemma AllFilled(source: Source, cursor: Option<Reference>, n: nat, open: seq<Found>, start: Option<Reference>)
    requires Filling(source, cursor, |Query(source, cursor)|, n, open, start)
    ensures if open == [] then |ChunksFrom(source, cursor)| == n
            else |ChunksFrom(source, cursor)| == n + 1 && ChunksFrom(source, cursor)[n] == open
  {
    var relationships := Query(source, cursor);
    assert relationships[..|relationships|] == relationships;
  }

  lemma MadeIsGenuine(source: Source, cursor: Option<Reference>, n: nat, chunk: ChunkView)
    requires source.Sorted() && n < |ChunksFrom(source, cursor)|
    requires chunk.dbCursor == StartOf(cursor, ChunksFrom(source, cursor), n)
    requires var group := ChunksFrom(source, cursor)[n];
             group != [] && chunk.subjects == Collect(group) && chunk.final == Some(group[|group| - 1].relationship)
    ensures Genuine(source, chunk) && ChunksFrom(source, chunk.dbCursor) == ChunksFrom(source, cursor)[n..]
  {
    ChunksAt(source, cursor, n);
  }

  /** A cached chunk and what is fetched after it are what would be fetched without the cache. */
  lemma ServedFromCache(source: Source, issued: map<nat, Option<Reference>>, index: DatastoreIndex, chunk: ChunkView,
                        pieces: seq<(Subjects, DatastoreIndex)>)
    requires source.Sorted() && Genuine(source, chunk) && chunk.dbCursor == index.dbCursor && Issued(issued, index)
    requires Serves(source, issued, ChunksFrom(source, Some(ReferenceOf(chunk.final.value))), pieces)
    requires |pieces| == |ChunksFrom(source, Some(ReferenceOf(chunk.final.value)))|
    ensures Serves(source, issued, ChunksFrom(source, index.dbCursor), [(chunk.subjects, index)] + pieces)
    ensures |ChunksFrom(source, index.dbCursor)| == 1 + |pieces|
  {
    var chunks := ChunksFrom(source, index.dbCursor);
    ChunksAt(source, index.dbCursor, 1);
    var rest := ChunksFrom(source, Some(ReferenceOf(chunk.final.value)));
    assert rest == chunks[1..] && chunks[0..] == chunks;
    var all := [(chunk.subjects, index)] + pieces;
    forall j | 0 < j < |all| ensures all[j].0 == Collect(chunks[j])
        && ChunksFrom(source, all[j].1.dbCursor) == chunks[j..] {
      assert all[j] == pieces[j - 1] && rest[j - 1] == chunks[j] && rest[j - 1..] == chunks[j..];
    }
  }

  /** The cache keeps what it has, and gets nothing new when the request is not limited. */
  ghost predicate Grows(limited: bool, was: map<nat, ChunkView>, now: map<nat, ChunkView>) {
    (forall id <- was :: id in now && now[id] == was[id]) && (!limited ==> now == was)
  }

  ghost predicate InCache(cache: map<nat, ChunkView>, index: DatastoreIndex) {
    index.chunkID.Some? && index.chunkID.value in cache
  }

  ghost predicate AllCached(cache: map<nat, ChunkView>, pieces: seq<(Subjects, DatastoreIndex)>) {
    forall piece <- pieces :: InCache(cache, piece.1)
  }

  lemma OneMoreCached(limited: bool, was: map<nat, ChunkView>, now: map<nat, ChunkView>,
                      pieces: seq<(Subjects, DatastoreIndex)>, piece: (Subjects, DatastoreIndex))
    requires Grows(limited, was, now) && AllCached(was, pieces) && InCache(now, piece.1)
    ensures AllCached(now, pieces + [piece]) && AllCached(now, [piece] + pieces)
  {
    forall p | p in pieces + [piece] || p in [piece] + pieces ensures InCache(now, p.1) {
      assert p in pieces || p == piece;
    }
  }

  /** The producer of one lookup. `limited` says that the request has a limit, and only then are
      chunks cached; `issued` records which cursor each chunk id was given out with. */
  class ChunkedLookup {
    const source: Source
    const limited: bool
    var cache: map<nat, ChunkView>
    var nextID: nat
    ghost var issued: map<nat, Option<Reference>>

    constructor (source: Source, limited: bool)
      requires source.Sorted()
      ensures Valid() && this.source == source && this.limited == limited && issued == map[]
    {
      this.source, this.limited, cache, nextID, issued := source, limited, map[], 0, map[];
    }

    ghost predicate Valid()
      reads this
    {
      && source.Sorted()
      && (forall id <- issued :: id < nextID)
      && (forall id <- cache :: id in issued && cache[id].dbCursor == issued[id] && Genuine(source, cache[id]))
    }

    ghost predicate Cached(index: DatastoreIndex)
      reads this
    {
      InCache(cache, index)
    }

    /** When the request is limited, every chunk given out is in the cache. */
    ghost predicate Stored(pieces: seq<(Subjects, DatastoreIndex)>)
      reads this
    {
      limited ==> AllCached(cache, pieces)
    }

    /** The cache may lose any chunks at any time. */
    method Evict(ids: set<nat>)
      requires Valid()
      modifies this`cache
      ensures Valid() && cache == old(cache) - ids
    {
      cache := cache - ids;
    }

    method LookupRelationshipsChunk(index: DatastoreIndex) returns (chunk: Option<ChunkView>)
      requires Valid() && Known(issued, index)
      ensures chunk.Some? ==>
              Issued(issued, index) && chunk.value.dbCursor == index.dbCursor && Genuine(source, chunk.value)
      ensures chunk.Some? <==> Cached(index)
      ensures chunk.Some? ==> chunk.value == cache[index.chunkID.value]
    {
      if index.chunkID.None? || index.chunkID.value !in cache {
        return None;
      }
      chunk := Some(cache[index.chunkID.value]);
    }

    /** Gives a finished chunk out, storing it when the request is limited. */
    method GiveOut(rm: RelationshipsChunk) returns (piece: (Subjects, DatastoreIndex))
      requires Valid() && rm.uniqueID < nextID && rm.uniqueID !in issued && Genuine(source, rm.View())
      modifies this
      ensures Valid() && nextID == old(nextID) && issued == old(issued)[rm.uniqueID := rm.dbCursor]
      ensures piece == (rm.subjects, DatastoreIndex(rm.dbCursor, Some(rm.uniqueID)))
      ensures cache == if limited then old(cache)[rm.uniqueID := rm.View()] else old(cache)
    {
      if limited {
        cache := cache[rm.uniqueID := rm.View()];
      }
      issued := issued[rm.uniqueID := rm.dbCursor];
      piece := (rm.subjects, DatastoreIndex(rm.dbCursor, Some(rm.uniqueID)));
    }

    method NewChunk(dbCursor: Option<Reference>) returns (rm: RelationshipsChunk)
      requires Valid()
      modifies this`nextID
      ensures Valid() && fresh(rm) && rm.Valid() && rm.found == [] && rm.dbCursor == dbCursor
      ensures rm.uniqueID < nextID && rm.uniqueID !in issued
    {
      rm := new RelationshipsChunk(nextID, dbCursor);
      nextID := nextID + 1;
    }

    /** Having seen `i` relationships after the cursor, the chunks in `pieces` have been given out
        and the current one is being filled. */
    ghost predicate Fetching(cursor: Option<Reference>, i: nat, pieces: seq<(Subjects, DatastoreIndex)>,
                             rm: RelationshipsChunk)
      reads this, rm
    {
      && Valid() && rm.Valid() && rm.uniqueID < nextID && rm.uniqueID !in issued
      && Filling(source, cursor, i, |pieces|, rm.found, rm.dbCursor)
      && Serves(source, issued, ChunksFrom(source, cursor), pieces) && Stored(pieces)
    }

    /** Gives out the chunk that has just been completed. */
    method GiveOutNext(ghost cursor: Option<Reference>, pieces: seq<(Subjects, DatastoreIndex)>, rm: RelationshipsChunk)
      returns (pieces': seq<(Subjects, DatastoreIndex)>)
      requires Valid() && rm.Valid() && rm.uniqueID < nextID && rm.uniqueID !in issued && rm.found != []
      requires |pieces| < |ChunksFrom(source, cursor)| && ChunksFrom(source, cursor)[|pieces|] == rm.found
      requires rm.dbCursor == StartOf(cursor, ChunksFrom(source, cursor), |pieces|)
      requires Serves(source, issued, ChunksFrom(source, cursor), pieces) && Stored(pieces)
      modifies this
      ensures Valid() && nextID == old(nextID) && Keeps(old(issued), issued)
      ensures Stored(pieces') && Grows(limited, old(cache), cache)
      ensures |pieces'| == |pieces| + 1 && Serves(source, issued, ChunksFrom(source, cursor), pieces')
    {
      MadeIsGenuine(source, cursor, |pieces|, rm.View());
      var piece := GiveOut(rm);
      assert rm.uniqueID !in old(cache) && Grows(limited, old(cache), cache);
      if limited {
        OneMoreCached(limited, old(cache), cache, pieces, piece);
      }
      ServesMore(source, old(issued), issued, ChunksFrom(source, cursor), pieces, piece);
      pieces' := pieces + [piece];
    }

    /** Adds a relationship to the current chunk, and starts another chunk when this one is full. */
    method Absorb(ghost cursor: Option<Reference>, ghost i: nat, pieces: seq<(Subjects, DatastoreIndex)>,
                  rm: RelationshipsChunk, r: Relationship, missing: set<string>)
      returns (pieces': seq<(Subjects, DatastoreIndex)>, rm': RelationshipsChunk)
      requires Fetching(cursor, i, pieces, rm)
      requires i < |Query(source, cursor)| && Query(source, cursor)[i] == r && Verdict(source, r) == Some(missing)
      modifies this, rm
      ensures Fetching(cursor, i + 1, pieces', rm') && Keeps(old(issued), issued) && (rm' == rm || fresh(rm'))
      ensures Grows(limited, old(cache), cache)
    {
      FillStep(source, cursor, i, |pieces|, rm.found, rm.dbCursor);
      var count := rm.AddRelationship(r, missing);
      if count >= source.chunkSize {
        pieces' := GiveOutNext(cursor, pieces, rm);
        rm' := NewChunk(Some(ReferenceOf(r)));
      } else {
        pieces', rm' := pieces, rm;
      }
    }

    /** Fills chunk after chunk from the datastore. */
    method FetchFrom(cursor: Option<Reference>) returns (pieces: seq<(Subjects, DatastoreIndex)>)
      requires Valid()
      modifies this
      ensures Valid() && Keeps(old(issued), issued)
      ensures Serves(source, issued, ChunksFrom(source, cursor), pieces) && |pieces| == |ChunksFrom(source, cursor)|
      ensures Stored(pieces) && Grows(limited, old(cache), cache)
    {
      var relationships := Query(source, cursor);
      var rm := NewChunk(cursor);
      pieces := [];
      assert relationships[..0] == [];
      for i := 0 to |relationships|
        invariant Fetching(cursor, i, pieces, rm) && Keeps(old(issued), issued) && fresh(rm)
        invariant Grows(limited, old(cache), cache)
      {
        var verdict := Verdict(source, relationships[i]);
        if verdict.Some? {
          pieces, rm := Absorb(cursor, i, pieces, rm, relationships[i], verdict.value);
        } else {
          FillStep(source, cursor, i, |pieces|, rm.found, rm.dbCursor);
        }
      }
      AllFilled(source, cursor, |pieces|, rm.found, rm.dbCursor);
      var populated := rm.IsPopulated();
      if populated {
        pieces := GiveOutNext(cursor, pieces, rm);
      }
    }

    /** The cached chunk of the index first, a hold if the rest of the work may be spared, and then what is
        fetched after it. */
    method ProduceCached(index: DatastoreIndex, holds: bool, chunk: ChunkView)
      returns (output: ProducerOutput<Subjects, DatastoreIndex>)
      requires Valid() && Cached(index) && chunk == cache[index.chunkID.value]
      requires Issued(issued, index) && chunk.dbCursor == index.dbCursor && Genuine(source, chunk)
      modifies this
      ensures Valid() && Keeps(old(issued), issued) && Grows(limited, old(cache), cache)
      ensures !output.failed && Serves(source, issued, ChunksFrom(source, index.dbCursor), Pieces(output.chunks))
      ensures |Pieces(output.chunks)| == |ChunksFrom(source, index.dbCursor)| && Stored(Pieces(output.chunks))
      ensures output.chunks != [] && output.chunks[0] == Chunk(chunk.subjects, index)
      ensures HoldForMappingComplete in output.chunks <==> limited && holds
      ensures forall h | 0 <= h < |output.chunks| && output.chunks[h].HoldForMappingComplete? :: h == 1
    {
      var first := [Chunk(chunk.subjects, index)];
      if limited && holds {
        first := first + [HoldForMappingComplete];
      }
      var pieces := FetchFrom(Some(ReferenceOf(chunk.final.value)));
      ServedFromCache(source, issued, index, chunk, pieces);
      OutputPieces(chunk.subjects, index, first, pieces);
      output := ProducerOutput(first + AsChunks(pieces), false);
      if limited {
        OneMoreCached(limited, cache, cache, pieces, (chunk.subjects, index));
      }
    }

    /** What the producer makes when started at an index given out here or elsewhere. Whether the
        chunk of the index is still cached makes no difference to the chunks made. */
    method Produce(index: DatastoreIndex, holds: bool) returns (output: ProducerOutput<Subjects, DatastoreIndex>)
      requires Valid() && Known(issued, index)
      modifies this
      ensures Valid() && Keeps(old(issued), issued)
      ensures !output.failed && Serves(source, issued, ChunksFrom(source, index.dbCursor), Pieces(output.chunks))
      ensures |Pieces(output.chunks)| == |ChunksFrom(source, index.dbCursor)|
      ensures forall h | 0 <= h < |output.chunks| && output.chunks[h].HoldForMappingComplete? ::
              h > 0 && output.chunks[h - 1].Chunk?
      ensures old(Cached(index)) ==>
              output.chunks != [] && output.chunks[0] == Chunk(old(cache)[index.chunkID.value].subjects, index)
      ensures HoldForMappingComplete in output.chunks <==> old(Cached(index)) && limited && holds
      ensures Stored(Pieces(output.chunks)) && Grows(limited, old(cache), cache)
    {
      var cached := LookupRelationshipsChunk(index);
      if cached.Some? {
        output := ProduceCached(index, holds, cached.value);
      } else {
        var pieces := FetchFrom(index.dbCursor);
        PiecesOfChunks(pieces);
        NoHolds(pieces);
        output := ProducerOutput(AsChunks(pieces), false);
      }
    }
  }

  // ---- The producer obeys the resume law that the iterators build on.

  ghost predicate RightContents(source: Source, index: DatastoreIndex, pieces: seq<(Subjects, DatastoreIndex)>) {
    var chunks := ChunksFrom(source, index.dbCursor);
    |pieces| == |chunks| && forall j | 0 <= j < |pieces| :: pieces[j].0 == Collect(chunks[j])
  }

  /** The indexes a producer may be started at, each with the chunks it then makes. */
  ghost function Table(source: Source,
                       known: iset<DatastoreIndex>): iset<(DatastoreIndex, seq<(Subjects, DatastoreIndex)>)> {
    iset entry: (DatastoreIndex, seq<(Subjects, DatastoreIndex)>) | entry.0 in known
        && RightContents(source, entry.0, entry.1)
  }

  /** Right contents, each with a known index from which just this chunk and the later ones are made. */
  ghost predicate Makes(source: Source, known: iset<DatastoreIndex>, index: DatastoreIndex,
                        pieces: seq<(Subjects, DatastoreIndex)>) {
    && RightContents(source, index, pieces)
    && forall j | 0 <= j < |pieces| ::
         && pieces[j].1 in known && pieces[j].1.chunkID.Some?
         && ChunksFrom(source, pieces[j].1.dbCursor) == ChunksFrom(source, index.dbCursor)[j..]
  }

  /** At every known index, of which there may be infinitely many, the producer makes the right
      chunks with known indexes, new ones at each start if it likes; and indexes can be converted. */
  ghost predicate ProducesChunks(source: Source, known: iset<DatastoreIndex>,
                                 producer: Producer<Subjects, DatastoreIndex>, conv: Converters<DatastoreIndex>) {
    && (forall index: DatastoreIndex | index.chunkID.Some? :: Convertible(conv, index))
    && (forall index: DatastoreIndex, remaining: Cursor | index in known ::
          !producer(index, remaining).failed && Makes(source, known, index, Pieces(producer(index, remaining).chunks)))
  }

  ghost function WithIDs(source: Source, index: DatastoreIndex, id: nat -> nat): seq<(Subjects, DatastoreIndex)> {
    var chunks := ChunksFrom(source, index.dbCursor);
    seq(|chunks|, j requires 0 <= j < |chunks| =>
      (Collect(chunks[j]), DatastoreIndex(StartOf(index.dbCursor, chunks, j), Some(id(j)))))
  }

  ghost function ProducerWith(source: Source,
                              ids: (DatastoreIndex, Cursor) -> (nat -> nat)): Producer<Subjects, DatastoreIndex> {
    (index, remaining) => ProducerOutput(AsChunks(WithIDs(source, index, ids(index, remaining))), false)
  }

  /** However the chunk ids are chosen, new ones at each start or not, there is such a producer. */
  lemma AnyIDsWillDo(source: Source, known: iset<DatastoreIndex>, ids: (DatastoreIndex, Cursor) -> (nat -> nat),
                     conv: Converters<DatastoreIndex>)
    requires source.Sorted() && forall index: DatastoreIndex | index.chunkID.Some? :: Convertible(conv, index)
    requires forall index: DatastoreIndex :: index in known
    ensures ProducesChunks(source, known, ProducerWith(source, ids), conv)
  {
    var producer := ProducerWith(source, ids);
    forall index: DatastoreIndex, remaining: Cursor
      ensures Makes(source, known, index, Pieces(producer(index, remaining).chunks))
    {
      var pieces := WithIDs(source, index, ids(index, remaining));
      PiecesOfChunks(pieces);
      forall j | 0 <= j < |pieces|
        ensures ChunksFrom(source, pieces[j].1.dbCursor) == ChunksFrom(source, index.dbCursor)[j..]
      {
        ChunksAt(source, index.dbCursor, j);
      }
    }
  }

  /** Such a producer obeys the producer's resume law, up to the cursors of its chunks. */
  lemma ChunksResume(source: Source, known: iset<DatastoreIndex>, producer: Producer<Subjects, DatastoreIndex>,
                     conv: Converters<DatastoreIndex>)
    requires ProducesChunks(source, known, producer, conv)
    ensures ProducerResumes(producer, conv, Table(source, known), false)
  {
    forall entry, remaining | entry in Table(source, known)
      ensures Produces(producer, conv, Table(source, known), entry.0, remaining, entry.1, false)
    {
      var actual := Pieces(producer(entry.0, remaining).chunks);
      ListedAgain(source, known, conv, entry.0, actual, entry.1);
    }
  }

  lemma ListedAgain(source: Source, known: iset<DatastoreIndex>, conv: Converters<DatastoreIndex>,
                    index: DatastoreIndex,
                    actual: seq<(Subjects, DatastoreIndex)>, pieces: seq<(Subjects, DatastoreIndex)>)
    requires forall i: DatastoreIndex | i.chunkID.Some? :: Convertible(conv, i)
    requires Makes(source, known, index, actual) && RightContents(source, index, pieces)
    ensures SamePieces(false, actual, pieces) && Listed(conv, Table(source, known), actual, pieces)
  {
  }

  /** The lookup over the chunks: when the mapper resumes on every chunk, pages of any sizes are the
      unpaged run. */
  lemma LookupPagesConcatenate<I>(source: Source, known: iset<DatastoreIndex>,
                                  producer: Producer<Subjects, DatastoreIndex>, conv: Converters<DatastoreIndex>,
                                  mapper: Mapper<Subjects, I>, sizes: seq<nat>)
    requires ProducesChunks(source, known, producer, conv) && conv.zero in known
    requires MapsFromStart(mapper, Pieces(producer(conv.zero, []).chunks), false)
    ensures var f := ProducerMapper(producer, mapper, conv);
            !f([]).failed && Alike(false, Pages(f, [], sizes), Clip(f([]).items, Total(sizes)))
  {
    var f := ProducerMapper(producer, mapper, conv);
    var items := LookupResumes(source, known, producer, conv, mapper);
    PagesConcatenate(f, [], items, false, sizes);
  }

  lemma LookupResumes<I>(source: Source, known: iset<DatastoreIndex>, producer: Producer<Subjects, DatastoreIndex>,
                         conv: Converters<DatastoreIndex>, mapper: Mapper<Subjects, I>)
                           returns (items: seq<ItemAndCursor<I>>)
    requires ProducesChunks(source, known, producer, conv) && conv.zero in known
    requires MapsFromStart(mapper, Pieces(producer(conv.zero, []).chunks), false)
    ensures Resumes(ProducerMapper(producer, mapper, conv), [], items, false)
  {
    var pieces := Pieces(producer(conv.zero, []).chunks);
    var first := if pieces == [] then [] else mapper([], pieces[0].0).items;
    items := FromPieces(pieces, mapper, conv.to, first);
    ChunksResume(source, known, producer, conv);
    AllFromStart(mapper, pieces, false);
    assert Makes(source, known, conv.zero, pieces);
    ProducerMapperResumes(producer, mapper, conv, Table(source, known), [], conv.zero, [], pieces, first, false);
  }
}
