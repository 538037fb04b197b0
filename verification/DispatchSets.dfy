/** The subjects over which a check must be dispatched further, their division into chunks,
    and the way back from a subject to the resources it was found for. */
module DispatchSets {
  import opened Common
  import opened Caveats
  import opened Tuples

  /** Used when the configured chunk size is zero. */
  const DEFAULT_CHUNK_SIZE := 100

  datatype ResourceIDAndCaveat = ResourceIDAndCaveat(resourceID: string, caveat: Option<Caveat>)

  datatype SubjectEntry = SubjectEntry(objectID: string, hasIncomingCaveats: bool)

  datatype DispatchChunk = DispatchChunk(resourceType: RelationReference, resourceIds: seq<string>,
                                         hasIncomingCaveats: bool)

  function MappingOf(rel: Relationship): ResourceIDAndCaveat {
    ResourceIDAndCaveat(rel.resource.objectID, rel.caveat)
  }

  predicate Caveated(rel: Relationship) {
    rel.caveat.Some? && rel.caveat.value.name != ""
  }

  ghost predicate HasSubject(rels: seq<Relationship>, subject: ObjectAndRelation) {
    exists r <- rels :: r.subject == subject
  }

  ghost predicate HasCaveatedSubject(rels: seq<Relationship>, subject: ObjectAndRelation) {
    exists r <- rels :: r.subject == subject && Caveated(r)
  }

  ghost predicate MapsTo(rels: seq<Relationship>, subject: ObjectAndRelation, m: ResourceIDAndCaveat) {
    exists r <- rels :: r.subject == subject && MappingOf(r) == m
  }

  lemma RelsSnoc(rels: seq<Relationship>, rel: Relationship)
    ensures forall s :: HasSubject(rels + [rel], s) <==> HasSubject(rels, s) || s == rel.subject
    ensures forall s :: HasCaveatedSubject(rels + [rel], s) <==>
            HasCaveatedSubject(rels, s) || (s == rel.subject && Caveated(rel))
    ensures forall s, m :: MapsTo(rels + [rel], s, m) <==>
            MapsTo(rels, s, m) || (s == rel.subject && m == MappingOf(rel))
  {
  }

  /** Byte-wise order of ids. */
  predicate IdLess(a: string, b: string) {
    b != [] && (a == [] || a[0] < b[0] || (a[0] == b[0] && IdLess(a[1..], b[1..])))
  }

  /** Caveated entries first, then by id. */
  predicate EntryLess(a: SubjectEntry, b: SubjectEntry) {
    if a.hasIncomingCaveats == b.hasIncomingCaveats then IdLess(a.objectID, b.objectID)
    else a.hasIncomingCaveats
  }

  lemma {:induction false} IdLessTotal(a: string, b: string)
    ensures a == b || IdLess(a, b) || IdLess(b, a)
  {
    if a != [] && b != [] && a[0] == b[0] {
      assert a == [a[0]] + a[1..] && b == [b[0]] + b[1..];
      IdLessTotal(a[1..], b[1..]);
    }
  }

  lemma {:induction false} IdLessTransitive(a: string, b: string, c: string)
    requires IdLess(a, b) && IdLess(b, c)
    ensures IdLess(a, c)
  {
    if a != [] && a[0] == b[0] && b[0] == c[0] {
      IdLessTransitive(a[1..], b[1..], c[1..]);
    }
  }

  lemma EntryLessTransitive(a: SubjectEntry, b: SubjectEntry, c: SubjectEntry)
    requires EntryLess(a, b) && EntryLess(b, c)
    ensures EntryLess(a, c)
  {
    if a.hasIncomingCaveats == b.hasIncomingCaveats == c.hasIncomingCaveats {
      IdLessTransitive(a.objectID, b.objectID, c.objectID);
    }
  }

  ghost predicate Least(entries: set<SubjectEntry>, e: SubjectEntry) {
    e in entries && forall other <- entries :: other != e ==> EntryLess(e, other)
  }

  lemma LeastExists(entries: set<SubjectEntry>)
    requires entries != {}
    ensures exists e :: Least(entries, e)
  {
    var x :| x in entries;
    if entries == {x} {
      assert Least(entries, x);
    } else {
      var rest := entries - {x};
      assert rest != {};
      LeastExists(rest);
      var e :| Least(rest, e);
      IdLessTotal(x.objectID, e.objectID);
      if EntryLess(x, e) {
        forall other <- entries | other != x ensures EntryLess(x, other) {
          if other != e {
            EntryLessTransitive(x, e, other);
          }
        }
        assert Least(entries, x);
      } else {
        assert Least(entries, e);
      }
    }
  }

  ghost predicate Sorted(entries: seq<SubjectEntry>) {
    forall i, j | 0 <= i < j < |entries| :: EntryLess(entries[i], entries[j])
  }

  /** The subjects of one type, each once, in dispatch order. */
  method SortedEntries(subjects: map<string, bool>) returns (entries: seq<SubjectEntry>)
    ensures Sorted(entries)
    ensures forall e :: e in entries <==> e.objectID in subjects && subjects[e.objectID] == e.hasIncomingCaveats
    ensures DistinctEntries(entries)
  {
    entries := [];
    var waiting := set id <- subjects :: SubjectEntry(id, subjects[id]);
    while waiting != {}
      invariant forall e :: e in entries || e in waiting <==>
                e.objectID in subjects && subjects[e.objectID] == e.hasIncomingCaveats
      invariant forall e <- entries, other <- waiting :: EntryLess(e, other) && e != other
      invariant Sorted(entries)
      invariant forall i, j | 0 <= i < j < |entries| :: entries[i] != entries[j]
    {
      LeastExists(waiting);
      var next :| next in waiting && forall other <- waiting :: other != next ==> EntryLess(next, other);
      entries := entries + [next];
      waiting := waiting - {next};
    }
  }

  /** The number of caveated entries. */
  ghost function CaveatedCount(entries: seq<SubjectEntry>): nat {
    if entries == [] then 0
    else (if entries[|entries| - 1].hasIncomingCaveats then 1 else 0) + CaveatedCount(entries[..|entries| - 1])
  }

  lemma {:induction false} CaveatedFirst(entries: seq<SubjectEntry>)
    requires Sorted(entries)
    ensures CaveatedCount(entries) <= |entries|
    ensures forall i | 0 <= i < |entries| :: entries[i].hasIncomingCaveats <==> i < CaveatedCount(entries)
  {
    if entries != [] {
      var front := entries[..|entries| - 1];
      CaveatedFirst(front);
      if entries[|entries| - 1].hasIncomingCaveats {
        forall i | 0 <= i < |front| ensures front[i].hasIncomingCaveats {
          assert EntryLess(entries[i], entries[|entries| - 1]);
        }
        if |front| > 0 {
          assert front[|front| - 1].hasIncomingCaveats;
        }
      }
    }
  }

  function IdsOf(entries: seq<SubjectEntry>): seq<string> {
    seq(|entries|, i requires 0 <= i < |entries| => entries[i].objectID)
  }

  function Min(a: int, b: int): int {
    if a < b then a else b
  }

  /** The ids dispatched for one subject type, in order. */
  ghost function IdsOfType(chunks: seq<DispatchChunk>, kind: RelationReference): seq<string> {
    if chunks == [] then []
    else IdsOfType(chunks[..|chunks| - 1], kind) +
         if chunks[|chunks| - 1].resourceType == kind then chunks[|chunks| - 1].resourceIds else []
  }

  /** The number of chunks of one subject type that are flagged as caveated. */
  ghost function FlaggedOfType(chunks: seq<DispatchChunk>, kind: RelationReference): nat {
    if chunks == [] then 0
    else FlaggedOfType(chunks[..|chunks| - 1], kind) +
         if chunks[|chunks| - 1].resourceType == kind && chunks[|chunks| - 1].hasIncomingCaveats then 1 else 0
  }

  lemma {:induction false} ChunksAppend(first: seq<DispatchChunk>, second: seq<DispatchChunk>, kind: RelationReference)
    ensures IdsOfType(first + second, kind) == IdsOfType(first, kind) + IdsOfType(second, kind)
    ensures FlaggedOfType(first + second, kind) == FlaggedOfType(first, kind) + FlaggedOfType(second, kind)
  {
    if second == [] {
      assert first + second == first;
    } else {
      var front := second[..|second| - 1];
      ChunksAppend(first, front, kind);
      assert (first + second)[..|first + second| - 1] == first + front;
    }
  }

  lemma {:induction false} OtherTypes(chunks: seq<DispatchChunk>, kind: RelationReference)
    requires forall c <- chunks :: c.resourceType != kind
    ensures IdsOfType(chunks, kind) == [] && FlaggedOfType(chunks, kind) == 0
  {
    if chunks != [] {
      assert chunks[|chunks| - 1] in chunks;
      OtherTypes(chunks[..|chunks| - 1], kind);
    }
  }

  ghost predicate Distinct(ids: seq<string>) {
    forall i, j | 0 <= i < j < |ids| :: ids[i] != ids[j]
  }

  ghost predicate DistinctEntries(entries: seq<SubjectEntry>) {
    forall i, j | 0 <= i < j < |entries| :: entries[i].objectID != entries[j].objectID
  }

  /** A chunk is one request's worth of known subjects, flagged when some of them is caveated. */
  ghost predicate ChunkShape(c: DispatchChunk, subjects: map<string, bool>, size: nat) {
    && 0 < |c.resourceIds| <= size && Distinct(c.resourceIds)
    && (forall id <- c.resourceIds :: id in subjects)
    && (c.hasIncomingCaveats <==> exists id <- c.resourceIds :: id in subjects && subjects[id])
  }

  /** At most as many flagged chunks as `k` caveated subjects fill: flagged <= ceil(k / size). */
  ghost predicate WithinCeiling(flagged: nat, k: nat, size: nat) {
    flagged > 0 ==> (flagged - 1) * size < k
  }

  method ChunkEntries(kind: RelationReference, subjects: map<string, bool>, entries: seq<SubjectEntry>, size: nat)
    returns (chunks: seq<DispatchChunk>)
    requires size > 0 && Sorted(entries) && DistinctEntries(entries)
    requires forall e <- entries :: e.objectID in subjects && subjects[e.objectID] == e.hasIncomingCaveats
    ensures forall c <- chunks :: c.resourceType == kind && ChunkShape(c, subjects, size)
    ensures IdsOfType(chunks, kind) == IdsOf(entries)
    ensures WithinCeiling(FlaggedOfType(chunks, kind), CaveatedCount(entries), size)
  {
    CaveatedFirst(entries);
    chunks := [];
    var start := 0;
    assert entries[..0] == [];
    while start < |entries|
      invariant ChunkProgress(chunks, kind, subjects, entries, size, start)
    {
      var stop := Min(start + size, |entries|);
      var chunk := OneChunk(kind, subjects, entries[start..stop], size);
      ChunkProgressStep(chunks, chunk, kind, subjects, entries, size, start);
      chunks := chunks + [chunk];
      start := start + size;
    }
    assert entries[..|entries|] == entries;
  }

  /** The chunks made so far cover the entries before `start`. */
  ghost predicate ChunkProgress(chunks: seq<DispatchChunk>, kind: RelationReference, subjects: map<string, bool>,
                                entries: seq<SubjectEntry>, size: nat, start: nat) {
    && start == |chunks| * size
    && (forall c <- chunks :: c.resourceType == kind && ChunkShape(c, subjects, size))
    && IdsOfType(chunks, kind) == IdsOf(entries[..Min(start, |entries|)])
    && (FlaggedOfType(chunks, kind) == |chunks| || start >= CaveatedCount(entries))
    && WithinCeiling(FlaggedOfType(chunks, kind), CaveatedCount(entries), size)
  }

  lemma ChunkProgressStep(chunks: seq<DispatchChunk>, chunk: DispatchChunk, kind: RelationReference,
                          subjects: map<string, bool>, entries: seq<SubjectEntry>, size: nat, start: nat)
    requires size > 0 && Sorted(entries) && start < |entries|
    requires ChunkProgress(chunks, kind, subjects, entries, size, start)
    requires chunk.resourceType == kind && ChunkShape(chunk, subjects, size)
    requires chunk.resourceIds == IdsOf(entries[start..Min(start + size, |entries|)])
    requires chunk.hasIncomingCaveats <==>
             exists e <- entries[start..Min(start + size, |entries|)] :: e.hasIncomingCaveats
    ensures ChunkProgress(chunks + [chunk], kind, subjects, entries, size, start + size)
  {
    var stop := Min(start + size, |entries|);
    var k := CaveatedCount(entries);
    var part := entries[start..stop];
    CaveatedPart(entries, start, stop);
    assert (chunks + [chunk])[..|chunks|] == chunks;
    assert entries[..stop] == entries[..start] + part;
    assert IdsOf(entries[..stop]) == IdsOf(entries[..start]) + IdsOf(part);
    OneMore(|chunks|, size);
    assert chunk.hasIncomingCaveats <==> start < k;
    assert FlaggedOfType(chunks + [chunk], kind) == FlaggedOfType(chunks, kind) + if start < k then 1 else 0;
  }

  lemma OneMore(n: nat, size: nat)
    ensures (n + 1) * size == n * size + size
  {
  }

  lemma CaveatedPart(entries: seq<SubjectEntry>, start: nat, stop: nat)
    requires Sorted(entries) && start < stop <= |entries|
    ensures (exists e <- entries[start..stop] :: e.hasIncomingCaveats) <==> start < CaveatedCount(entries)
  {
    CaveatedFirst(entries);
    var part := entries[start..stop];
    assert part[0] == entries[start];
    if e :| e in part && e.hasIncomingCaveats {
      var i :| 0 <= i < |part| && part[i] == e;
      assert entries[start + i] == e;
    }
  }

  method OneChunk(kind: RelationReference, subjects: map<string, bool>, entries: seq<SubjectEntry>, size: nat)
    returns (chunk: DispatchChunk)
    requires 0 < |entries| <= size && DistinctEntries(entries)
    requires forall e <- entries :: e.objectID in subjects && subjects[e.objectID] == e.hasIncomingCaveats
    ensures chunk.resourceType == kind && chunk.resourceIds == IdsOf(entries) && ChunkShape(chunk, subjects, size)
    ensures chunk.hasIncomingCaveats <==> exists e <- entries :: e.hasIncomingCaveats
  {
    var ids: seq<string> := [];
    var hasIncomingCaveats := false;
    for i := 0 to |entries|
      invariant ids == IdsOf(entries[..i])
      invariant hasIncomingCaveats <==> exists e <- entries[..i] :: e.hasIncomingCaveats
    {
      assert entries[..i + 1] == entries[..i] + [entries[i]];
      ids := ids + [entries[i].objectID];
      hasIncomingCaveats := hasIncomingCaveats || entries[i].hasIncomingCaveats;
    }
    assert entries[..|entries|] == entries;
    forall i | 0 <= i < |entries| ensures ids[i] == entries[i].objectID && entries[i] in entries {
    }
    assert forall e <- entries :: e.objectID in ids;
    chunk := DispatchChunk(kind, ids, hasIncomingCaveats);
  }

  function EffectiveSize(chunkSize: nat): (size: nat)
    ensures size > 0
  {
    if chunkSize == 0 then DEFAULT_CHUNK_SIZE else chunkSize
  }

  ghost function CaveatedIds(subjects: map<string, bool>): set<string> {
    set id <- subjects | subjects[id]
  }

  /** The chunks of this type hold each subject exactly once, and no more of them are flagged
      than the caveated subjects need. */
  ghost predicate PartitionOf(chunks: seq<DispatchChunk>, kind: RelationReference, subjects: map<string, bool>,
                              size: nat) {
    var ids := IdsOfType(chunks, kind);
    && Distinct(ids)
    && (forall id :: id in ids <==> id in subjects)
    && WithinCeiling(FlaggedOfType(chunks, kind), |CaveatedIds(subjects)|, size)
  }

  lemma EntriesPartition(chunks: seq<DispatchChunk>, kind: RelationReference, subjects: map<string, bool>,
                         entries: seq<SubjectEntry>, size: nat)
    requires forall e :: e in entries <==> e.objectID in subjects && subjects[e.objectID] == e.hasIncomingCaveats
    requires DistinctEntries(entries)
    requires IdsOfType(chunks, kind) == IdsOf(entries)
    requires WithinCeiling(FlaggedOfType(chunks, kind), CaveatedCount(entries), size)
    ensures PartitionOf(chunks, kind, subjects, size)
  {
    forall id ensures id in IdsOf(entries) <==> id in subjects {
      if id in subjects {
        var e := SubjectEntry(id, subjects[id]);
        var i :| 0 <= i < |entries| && entries[i] == e;
        assert IdsOf(entries)[i] == id;
      }
    }
    CaveatedCountIsCardinality(entries);
    assert CaveatedIds(subjects) == set e <- entries | e.hasIncomingCaveats :: e.objectID by {
      forall id <- CaveatedIds(subjects) ensures id in set e <- entries | e.hasIncomingCaveats :: e.objectID {
        assert SubjectEntry(id, true) in entries;
      }
    }
  }

  lemma {:induction false} CaveatedCountIsCardinality(entries: seq<SubjectEntry>)
    requires DistinctEntries(entries)
    ensures CaveatedCount(entries) == |set e <- entries | e.hasIncomingCaveats :: e.objectID|
  {
    if entries != [] {
      var front, last := entries[..|entries| - 1], entries[|entries| - 1];
      CaveatedCountIsCardinality(front);
      var ids := set e <- front | e.hasIncomingCaveats :: e.objectID;
      assert entries == front + [last];
      assert last.objectID !in ids;
      assert (set e <- entries | e.hasIncomingCaveats :: e.objectID) == ids + if last.hasIncomingCaveats
             then {last.objectID} else {};
    }
  }

  lemma {:induction false} InSomeChunk(chunks: seq<DispatchChunk>, kind: RelationReference, id: string)
    requires id in IdsOfType(chunks, kind)
    ensures exists c <- chunks :: c.resourceType == kind && id in c.resourceIds
  {
    var front, last := chunks[..|chunks| - 1], chunks[|chunks| - 1];
    if last.resourceType == kind && id in last.resourceIds {
      assert last in chunks;
    } else {
      InSomeChunk(front, kind, id);
    }
  }

  type SubjectsByType = map<RelationReference, map<string, bool>>
  type MappingsBySubject = map<ObjectAndRelation, seq<ResourceIDAndCaveat>>

  ghost predicate HasEntry(types: SubjectsByType, s: ObjectAndRelation) {
    s.Reference() in types && s.objectID in types[s.Reference()]
  }

  ghost predicate SubjectsOf(types: SubjectsByType, rels: seq<Relationship>) {
    && (forall s :: HasEntry(types, s) <==> HasSubject(rels, s))
    && (forall s | HasEntry(types, s) :: types[s.Reference()][s.objectID] <==> HasCaveatedSubject(rels, s))
  }

  ghost predicate MappingsOf(mappings: MappingsBySubject, rels: seq<Relationship>) {
    && (forall s :: s in mappings <==> HasSubject(rels, s))
    && (forall s, m | s in mappings :: m in mappings[s] <==> MapsTo(rels, s, m))
  }

  /** The resources found for a subject, with the caveats of the relationships followed. */
  function MappingsForSubject(bySubject: MappingsBySubject, subject: ObjectAndRelation): seq<ResourceIDAndCaveat> {
    if subject in bySubject then bySubject[subject] else []
  }

  lemma MappingsStep(was: MappingsBySubject, rels: seq<Relationship>, rel: Relationship)
    requires MappingsOf(was, rels)
    ensures MappingsOf(was[rel.subject := MappingsForSubject(was, rel.subject) + [MappingOf(rel)]], rels + [rel])
  {
  }

  lemma SubjectsStep(was: SubjectsByType, rels: seq<Relationship>, rel: Relationship)
    requires SubjectsOf(was, rels)
    ensures var kind, id := rel.subject.Reference(), rel.subject.objectID;
            var ids := if kind in was then was[kind] else map[];
            SubjectsOf(was[kind := ids[id := Caveated(rel) || (id in ids && ids[id])]], rels + [rel])
  {
    RelsSnoc(rels, rel);
    var kind, id := rel.subject.Reference(), rel.subject.objectID;
    var ids := if kind in was then was[kind] else map[];
    var now := was[kind := ids[id := Caveated(rel) || (id in ids && ids[id])]];
    forall s: ObjectAndRelation
      ensures HasEntry(now, s) <==> HasEntry(was, s) || s == rel.subject
      ensures HasEntry(was, s) && s != rel.subject ==> now[s.Reference()][s.objectID] == was[s.Reference()][s.objectID]
    {
      assert s.Reference() == kind && s.objectID == id ==> s == rel.subject;
    }
    assert HasEntry(was, rel.subject) <==> id in ids;
  }

  class CheckDispatchSet {
    var bySubjectType: SubjectsByType
    var bySubject: MappingsBySubject

    /** The set was built from exactly these relationships. */
    ghost predicate Represents(rels: seq<Relationship>)
      reads this
    {
      MappingsOf(bySubject, rels) && SubjectsOf(bySubjectType, rels)
    }

    constructor ()
      ensures Represents([])
      ensures bySubjectType == map[] && bySubject == map[]
    {
      bySubjectType := map[];
      bySubject := map[];
    }

    method AddForRelationship(rel: Relationship, ghost rels: seq<Relationship>)
      requires Represents(rels)
      modifies this
      ensures Represents(rels + [rel])
    {
      var existing := MappingsForSubject(bySubject, rel.subject);
      MappingsStep(bySubject, rels, rel);
      bySubject := bySubject[rel.subject := existing + [MappingOf(rel)]];

      var kind := rel.subject.Reference();
      var idsForType := if kind in bySubjectType then bySubjectType[kind] else map[];
      var flag := Caveated(rel) || (rel.subject.objectID in idsForType && idsForType[rel.subject.objectID]);
      SubjectsStep(bySubjectType, rels, rel);
      bySubjectType := bySubjectType[kind := idsForType[rel.subject.objectID := flag]];
    }

    /** Divides the subjects of each type into chunks of at most `chunkSize`. */
    method DispatchChunks(chunkSize: nat) returns (toDispatch: seq<DispatchChunk>)
      ensures forall c <- toDispatch ::
              c.resourceType in bySubjectType && ChunkShape(c, bySubjectType[c.resourceType], EffectiveSize(chunkSize))
      ensures forall kind <- bySubjectType ::
              PartitionOf(toDispatch, kind, bySubjectType[kind], EffectiveSize(chunkSize))
    {
      var size := EffectiveSize(chunkSize);
      toDispatch := [];
      var todo := bySubjectType.Keys;
      while todo != {}
        invariant todo <= bySubjectType.Keys
        invariant forall c <- toDispatch ::
                  c.resourceType in bySubjectType.Keys - todo && ChunkShape(c, bySubjectType[c.resourceType], size)
        invariant forall kind <- bySubjectType | kind !in todo ::
                  PartitionOf(toDispatch, kind, bySubjectType[kind], size)
      {
        var kind :| kind in todo;
        var entries := SortedEntries(bySubjectType[kind]);
        var chunks := ChunkEntries(kind, bySubjectType[kind], entries, size);
        EntriesPartition(chunks, kind, bySubjectType[kind], entries, size);
        forall other <- bySubjectType | other !in todo || other == kind
          ensures PartitionOf(toDispatch + chunks, other, bySubjectType[other], size)
        {
          ChunksAppend(toDispatch, chunks, other);
          OtherTypes(if other == kind then toDispatch else chunks, other);
        }
        toDispatch := toDispatch + chunks;
        todo := todo - {kind};
      }
    }
  }
}
