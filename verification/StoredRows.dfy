/**
 * A stored ordered collection as one sorted list: the iterator of EdgeIters walks it like a
 * row cursor, except that it throws behind the last row of a part with a full tail.
 */
module StoredRows {
  import opened Arith
  import opened ChunkCursor
  import opened ChunkReaders
  import opened EdgeIters
  import opened EdgeLayout
  import opened Graph
  import opened Results
  import opened Types

  /** The chunk counts an edge collection collects from the files when it is made. */
  method ReadChunkNums(info: EdgeSizes, t: AdjListType, files: EdgeFiles, ghost parts: seq<seq<Edge>>)
    returns (edgeChunkNums: seq<nat>)
    requires Stores(info, t, files, parts)
    ensures CountsOf(info, parts, edgeChunkNums)
  {
    edgeChunkNums := [];
    for i := 0 to GetVertexChunkNum(info, files, t)
      invariant |edgeChunkNums| == i
      invariant forall j: nat :: j < i ==> edgeChunkNums[j] == ChunkCount(info, parts[j])
    {
      assert StoresPart(info, files, parts[i], i);
      edgeChunkNums := edgeChunkNums + [GetEdgeChunkNum(info, files, i).value];
    }
  }

  // ----- parts and the flat list -----

  ghost predicate AllInPart(info: EdgeSizes, t: AdjListType, parts: seq<seq<Edge>>)
    requires info.Validated()
  {
    forall i: nat, k: nat :: i < |parts| && k < |parts[i]| ==> InPart(info, t, parts[i][k], i)
  }

  lemma InWhichPart(info: EdgeSizes, t: AdjListType, parts: seq<seq<Edge>>, i: nat, e: Edge)
    requires info.Validated() && AllInPart(info, t, parts) && i < |parts| && e in parts[i]
    ensures i == Key(t, e) / info.VertexChunkSize(t)
  {
    var k :| 0 <= k < |parts[i]| && parts[i][k] == e;
    assert InPart(info, t, parts[i][k], i);
  }

  /** An edge of the collection lies in the part of its vertex chunk and in no other. */
  lemma PartOfEdge(info: EdgeSizes, t: AdjListType, parts: seq<seq<Edge>>, e: Edge)
    requires info.Validated() && AllInPart(info, t, parts)
    ensures var p := Key(t, e) / info.VertexChunkSize(t);
            e in Flatten(parts) <==> p < |parts| && e in parts[p]
  {
    hide Flatten, AllInPart, Key;
    MemberOfFlatten(parts, e);
    var p := Key(t, e) / info.VertexChunkSize(t);
    assert p >= 0 by { DivBounds(Key(t, e), info.VertexChunkSize(t)); }
    if e in Flatten(parts) {
      var i :| 0 <= i < |parts| && e in parts[i];
      InWhichPart(info, t, parts, i, e);
    }
  }

  /** The other parts hold no edge with this key. */
  lemma OtherPartsLackKey(info: EdgeSizes, t: AdjListType, parts: seq<seq<Edge>>, p: nat, e: Edge)
    requires info.Validated() && AllInPart(info, t, parts) && p < |parts|
    requires Key(t, e) / info.VertexChunkSize(t) == p
    ensures e !in Flatten(parts[..p]) && e !in Flatten(parts[p + 1..])
  {
    hide Flatten, AllInPart, Key, EdgeSizes.VertexChunkSize;
    var before, after := parts[..p], parts[p + 1..];
    MemberOfFlatten(before, e);
    MemberOfFlatten(after, e);
    forall i: nat | i < p ensures e !in before[i] {
      if e in parts[i] { InWhichPart(info, t, parts, i, e); }
    }
    forall i: nat | i < |after| ensures e !in after[i] {
      if e in parts[p + 1 + i] { InWhichPart(info, t, parts, p + 1 + i, e); }
    }
  }

  lemma FlattenCons(part: seq<Edge>, rest: seq<seq<Edge>>)
    ensures Flatten([part] + rest) == part + Flatten(rest)
  {
    assert ([part] + rest)[1..] == rest;
  }

  lemma FlattenAround(parts: seq<seq<Edge>>, p: nat)
    requires p < |parts|
    ensures Flatten(parts) == Flatten(parts[..p]) + (parts[p] + Flatten(parts[p + 1..]))
  {
    hide Flatten;
    var rest := [parts[p]] + parts[p + 1..];
    assert parts == parts[..p] + rest by { SplitAround(parts, p); }
    FlattenAppend(parts[..p], rest);
    FlattenCons(parts[p], parts[p + 1..]);
  }

  lemma SplitAround<T>(s: seq<T>, p: nat)
    requires p < |s|
    ensures s == s[..p] + ([s[p]] + s[p + 1..])
  {
  }

  /** The place of row r of part p in the flat list. */
  ghost function Pos(parts: seq<seq<Edge>>, p: nat, r: nat): nat
    requires p <= |parts|
  {
    |Flatten(parts[..p])| + r
  }

  lemma RowInFlat(parts: seq<seq<Edge>>, p: nat, r: nat)
    requires p < |parts| && r < |parts[p]|
    ensures Pos(parts, p, r) < |Flatten(parts)| && Flatten(parts)[Pos(parts, p, r)] == parts[p][r]
  {
    hide Flatten;
    FlattenAround(parts, p);
  }

  lemma PosStep(parts: seq<seq<Edge>>, p: nat)
    requires p < |parts|
    ensures Pos(parts, p + 1, 0) == Pos(parts, p, |parts[p]|)
  {
    assert parts[..p + 1] == parts[..p] + [parts[p]];
    FlattenAppend(parts[..p], [parts[p]]);
    FlattenCons(parts[p], []);
    assert [parts[p]] + [] == [parts[p]];
  }

  lemma {:induction false} PosMonotone(parts: seq<seq<Edge>>, p: nat, p': nat)
    requires p <= p' <= |parts|
    ensures Pos(parts, p, 0) <= Pos(parts, p', 0)
    ensures p < p' ==> Pos(parts, p, |parts[p]|) <= Pos(parts, p', 0)
    decreases p'
  {
    if p < p' {
      PosMonotone(parts, p, p' - 1);
      PosStep(parts, p' - 1);
    }
  }

  lemma {:induction false} PosSkips(parts: seq<seq<Edge>>, p: nat, p': nat)
    requires p <= p' <= |parts| && forall i: nat :: p <= i < p' ==> parts[i] == []
    ensures Pos(parts, p', 0) == Pos(parts, p, 0)
    decreases p'
  {
    if p < p' {
      PosSkips(parts, p, p' - 1);
      PosStep(parts, p' - 1);
    }
  }

  lemma PosOfBegin(parts: seq<seq<Edge>>)
    ensures Pos(parts, 0, 0) == 0
  {
    assert parts[..0] == [];
  }

  lemma PosOfEnd(parts: seq<seq<Edge>>)
    ensures Pos(parts, |parts|, 0) == |Flatten(parts)|
  {
    assert parts[..|parts|] == parts;
  }

  // ----- collections in order -----

  ghost function Edges(it: EdgeIter): seq<Edge> {
    Flatten(it.parts)
  }

  /** An iterator over an ordered list whose parts hold their own vertices, sorted. */
  ghost predicate Opened(it: EdgeIter) {
    && it.info.Validated() && it.adjListType.Ordered() && it.parts != []
    && AllInPart(it.info, it.adjListType, it.parts)
    && SortedByKey(it.adjListType, Edges(it))
  }

  /** The iterator stands at this place of the flat list, or at its end. */
  ghost predicate On(it: EdgeIter, pos: nat)
    reads it, it.reader
  {
    exists p: nat, r: nat :: OnRow(it, pos, p, r)
  }

  ghost predicate OnRow(it: EdgeIter, pos: nat, p: nat, r: nat)
    reads it, it.reader
  {
    && p <= |it.parts| && (if p < |it.parts| then r < |it.parts[p]| else r == 0)
    && it.StandsAt(p, r) && pos == Pos(it.parts, p, r)
  }

  lemma OnRange(it: EdgeIter, pos: nat, p: nat, r: nat)
    requires OnRow(it, pos, p, r)
    ensures pos <= |Edges(it)| && (pos < |Edges(it)| <==> p < |it.parts|)
    ensures p < |it.parts| ==> it.At(p, r) && Edges(it)[pos] == it.parts[p][r]
    ensures it.Valid()
  {
    if p < |it.parts| {
      RowInFlat(it.parts, p, r);
    } else {
      PosOfEnd(it.parts);
    }
  }

  lemma OnIsValid(it: EdgeIter, pos: nat)
    requires On(it, pos)
    ensures it.Valid() && pos <= |Edges(it)|
  {
    var p: nat, r: nat :| OnRow(it, pos, p, r);
    OnRange(it, pos, p, r);
  }

  /** The edge at this place is the last one of a part with a full tail. */
  ghost predicate EndsFullTail(it: EdgeIter, pos: nat)
    requires it.info.Validated()
  {
    exists p: nat :: p < |it.parts| && FullTail(it.info, it.parts[p]) && pos + 1 == Pos(it.parts, p, |it.parts[p]|)
  }

  /** The vertex has edges, and its last one ends a part with a full tail. */
  ghost predicate TailRow(it: EdgeIter, id: nat)
    requires it.info.Validated()
  {
    exists pos: nat :: pos < |Edges(it)| && Key(it.adjListType, Edges(it)[pos]) == id && EndsFullTail(it, pos)
  }

  /** Row r of part p ends a full tail exactly when it is the last row and p has one. */
  lemma TailAtRow(it: EdgeIter, p: nat, r: nat)
    requires it.info.Validated() && p < |it.parts| && r < |it.parts[p]|
    ensures EndsFullTail(it, Pos(it.parts, p, r)) <==> r + 1 == |it.parts[p]| && FullTail(it.info, it.parts[p])
  {
    hide Pos, FullTail;
    var pos := Pos(it.parts, p, r);
    PosAdds(it.parts, p, r);
    PosAdds(it.parts, p, |it.parts[p]|);
    if EndsFullTail(it, pos) {
      var q: nat :| q < |it.parts| && FullTail(it.info, it.parts[q]) && pos + 1 == Pos(it.parts, q, |it.parts[q]|);
      PosAdds(it.parts, q, |it.parts[q]|);
      FullTailNonEmpty(it.info, it.parts[q]);
      if q < p {
        PosMonotone(it.parts, q, p);
      } else if p < q {
        PosMonotone(it.parts, p, q);
      }
    }
  }

  lemma PosAdds(parts: seq<seq<Edge>>, p: nat, r: nat)
    requires p <= |parts|
    ensures Pos(parts, p, r) == Pos(parts, p, 0) + r
  {
  }

  lemma FullTailNonEmpty(info: EdgeSizes, part: seq<Edge>)
    requires info.Validated() && FullTail(info, part)
    ensures |part| > 0
  {
  }

  // ----- the cursor -----

  /** A begin iterator over an ordered collection. */
  method Open(info: EdgeSizes, t: AdjListType, files: EdgeFiles, ghost parts: seq<seq<Edge>>, ghost edges: seq<Edge>)
    returns (it: EdgeIter)
    requires Stores(info, t, files, parts) && IsPartition(info, t, edges, parts) && parts != [] && t.Ordered()
    ensures fresh(it) && fresh(it.reader) && it.parts == parts && it.info == info && it.adjListType == t
    ensures it.reader.files == files && Opened(it) && On(it, 0)
  {
    hide StoresPart, OffsetsFor, Steps, InPart, ChunkBase, ChunkCount, CountsOf, Flatten, SortedByKey;
    var edgeChunkNums := ReadChunkNums(info, t, files, parts);
    it := new EdgeIter.Begin(info, t, files, edgeChunkNums, parts);
    FlattenSorted(info, t, parts, 0);
    ghost var p := NextPart(parts, 0);
    PosSkips(parts, 0, p);
    PosOfBegin(parts);
    assert OnRow(it, 0, p, 0);
  }

  /** The edge the iterator stands at. */
  method Read(it: EdgeIter, ghost pos: nat) returns (e: Edge)
    requires On(it, pos) && pos < |Edges(it)|
    modifies it.reader
    ensures On(it, pos) && e == Edges(it)[pos]
  {
    hide EdgeIter.Valid, Pos, Steps;
    ghost var p: nat, r: nat :| OnRow(it, pos, p, r);
    OnRange(it, pos, p, r);
    var edge := it.Current();
    assert OnRow(it, pos, p, r);
    e := edge.value;
  }

  /** to_begin: throws exactly when there is no edge. */
  method Rewind(it: EdgeIter) returns (ok: bool)
    requires Opened(it) && it.Valid()
    modifies it, it.reader
    ensures it.Valid() && (ok <==> Edges(it) != []) && (ok ==> On(it, 0))
  {
    hide Steps, ChunkBase, ChunkCount, Stores;
    ghost var p := NextPart(it.parts, 0);
    PosSkips(it.parts, 0, p);
    PosOfBegin(it.parts);
    ok := it.ToBegin();
    if p < |it.parts| {
      RowInFlat(it.parts, p, 0);
      assert OnRow(it, 0, p, 0);
    } else {
      PosOfEnd(it.parts);
    }
  }

  /** next_src, next_dst: one place on, throwing exactly behind a full tail. */
  method Next(it: EdgeIter, ghost pos: nat) returns (more: Result<bool>)
    requires Opened(it) && On(it, pos) && pos < |Edges(it)|
    modifies it, it.reader
    ensures it.Valid() && (more.Failure? <==> EndsFullTail(it, pos))
    ensures more.Success? ==> On(it, pos + 1)
    ensures more.Success? ==>
      (more.value <==>
        pos + 1 < |Edges(it)| && Key(it.adjListType, Edges(it)[pos + 1]) == Key(it.adjListType, Edges(it)[pos]))
  {
    hide Steps, ChunkBase, ChunkCount, Stores, EdgeIter.Valid, EndsFullTail, Flatten, FullTail, SortedByKey, InPart;
    ghost var p: nat, r: nat :| OnRow(it, pos, p, r);
    OnRange(it, pos, p, r);
    TailAtRow(it, p, r);
    NextInFlat(it.info, it.adjListType, it.parts, p, r);
    more := it.NextAligned(p, r);
    if more.Success? {
      ghost var (p', r') := AfterRow(it.info, it.parts, p, r);
      assert OnRow(it, pos + 1, p', r');
    }
  }

  /** What follows a row in the flat list: the next row of its part, or the first of a later part with other keys. */
  lemma NextInFlat(info: EdgeSizes, t: AdjListType, parts: seq<seq<Edge>>, p: nat, r: nat)
    requires info.Validated() && AllInPart(info, t, parts) && p < |parts| && r < |parts[p]|
    ensures var (p', r') := AfterRow(info, parts, p, r); p' <= |parts| && Pos(parts, p', r') == Pos(parts, p, r) + 1
    ensures var pos := Pos(parts, p, r) + 1;
      && (r + 1 < |parts[p]| ==> pos < |Flatten(parts)| && Flatten(parts)[pos] == parts[p][r + 1])
      && (r + 1 == |parts[p]| && pos < |Flatten(parts)| ==> Key(t, Flatten(parts)[pos]) != Key(t, parts[p][r]))
  {
    hide Flatten, AllInPart, Key, EdgeSizes.VertexChunkSize, FullTail;
    PosAdds(parts, p, r);
    PosAdds(parts, p, r + 1);
    if r + 1 < |parts[p]| {
      RowInFlat(parts, p, r + 1);
    } else {
      var q := NextPart(parts, p + 1);
      PosStep(parts, p);
      PosSkips(parts, p + 1, q);
      if q < |parts| {
        RowInFlat(parts, q, 0);
        InWhichPart(info, t, parts, q, parts[q][0]);
        InWhichPart(info, t, parts, p, parts[p][r]);
      } else {
        PosOfEnd(parts);
      }
    }
  }

  /** The public state of an iterator that stands at this place. */
  ghost predicate FromPos(it: EdgeIter, fromGlobal: nat, fromVertexChunk: nat, fromOffset: nat, from: nat)
    requires it.info.Validated()
  {
    exists fp: nat ::
      && fp <= |it.parts| && FromAt(it.info, it.parts, fromGlobal, fromOffset, fp)
      && (if fp < |it.parts| then fromVertexChunk < |it.parts| && fromOffset < |it.parts[fp]| else fromOffset == 0)
      && from == Pos(it.parts, fp, fromOffset)
  }

  lemma OnIsFrom(it: EdgeIter, begin: EdgeIter, pos: nat)
    requires On(begin, pos) && it.info == begin.info && it.parts == begin.parts
    ensures it.info.Validated() && FromPos(it, begin.globalChunkIndex, begin.vertexChunkIndex, begin.curOffset, pos)
  {
    hide Steps, ChunkBase, ChunkCount, Stores;
    var p: nat, r: nat :| OnRow(begin, pos, p, r);
    StandsIsFrom(begin, p, r);
    if p < |begin.parts| {
      StepsLag(begin.parts, begin.placed, p);
    }
  }

  /** The rows of a vertex in the flat list. */
  lemma RowsInFlat(it: EdgeIter, id: nat, p: nat, b: nat, e: nat)
    requires Opened(it) && p < |it.parts| && b <= e <= |it.parts[p]|
    requires id / it.info.VertexChunkSize(it.adjListType) == p
    requires forall k :: 0 <= k < |it.parts[p]| ==> (b <= k < e <==> Key(it.adjListType, it.parts[p][k]) == id)
    ensures forall k: nat :: k < |Edges(it)| ==>
      (Key(it.adjListType, Edges(it)[k]) == id <==> Pos(it.parts, p, b) <= k < Pos(it.parts, p, e))
  {
    hide Flatten, SortedByKey, AllInPart;
    var before, after := Flatten(it.parts[..p]), Flatten(it.parts[p + 1..]);
    FlattenAround(it.parts, p);
    forall k: nat | k < |Edges(it)|
      ensures Key(it.adjListType, Edges(it)[k]) == id <==> Pos(it.parts, p, b) <= k < Pos(it.parts, p, e)
    {
      var x := Edges(it)[k];
      if k < |before| {
        assert x == before[k];
      } else if k < |before| + |it.parts[p]| {
        assert x == it.parts[p][k - |before|];
      } else {
        assert x == after[k - |before| - |it.parts[p]|];
      }
      if Key(it.adjListType, x) == id {
        OtherPartsLackKey(it.info, it.adjListType, it.parts, p, x);
      }
    }
  }

  lemma NoRowsInFlat(it: EdgeIter, id: nat)
    requires Opened(it) && id / it.info.VertexChunkSize(it.adjListType) >= |it.parts|
    ensures forall k: nat :: k < |Edges(it)| ==> Key(it.adjListType, Edges(it)[k]) != id
  {
    hide Flatten, SortedByKey, AllInPart;
    forall k: nat | k < |Edges(it)| ensures Key(it.adjListType, Edges(it)[k]) != id {
      PartOfEdge(it.info, it.adjListType, it.parts, Edges(it)[k]);
    }
  }

  /**
   * first_src(from, id), first_dst(from, id), from a place with none of the vertex's edges
   * before it: found iff the vertex has an edge, and then the iterator stands at the first.
   */
  method First(it: EdgeIter, fromGlobal: nat, fromVertexChunk: nat, fromOffset: nat, ghost from: nat, id: nat)
    returns (found: bool, ghost pos: nat)
    requires Opened(it) && it.Valid() && FromPos(it, fromGlobal, fromVertexChunk, fromOffset, from)
    requires forall k :: 0 <= k < from && k < |Edges(it)| ==> Key(it.adjListType, Edges(it)[k]) != id
    modifies it, it.reader
    ensures it.Valid()
    ensures !found ==> unchanged(it) && unchanged(it.reader)
    ensures !found ==> forall k :: 0 <= k < |Edges(it)| ==> Key(it.adjListType, Edges(it)[k]) != id
    ensures found ==> On(it, pos) && from <= pos < |Edges(it)| && Key(it.adjListType, Edges(it)[pos]) == id
    ensures found ==> forall k :: 0 <= k < pos ==> Key(it.adjListType, Edges(it)[k]) != id
  {
    hide Steps, ChunkBase, ChunkCount, Stores, Flatten, SortedByKey, AllInPart, Wraps, FirstOutcome, EdgeIter.Answers,
         FromAt;
    ghost var fp: nat :|
      && fp <= |it.parts| && FromAt(it.info, it.parts, fromGlobal, fromOffset, fp)
      && (if fp < |it.parts| then fromVertexChunk < |it.parts| && fromOffset < |it.parts[fp]| else fromOffset == 0)
      && from == Pos(it.parts, fp, fromOffset);
    ghost var p, row := it.PartOf(id), it.Row(id);
    FirstIsNotBehind(it, id, fp, fromOffset, p, row.0, row.1);
    pos := if p < |it.parts| then Pos(it.parts, p, row.0) else 0;
    var r := it.FirstAligned(fromGlobal, fromVertexChunk, fromOffset, fp, id);
    found := r.Success? && r.value;
    if found {
      assert OnRow(it, pos, p, row.0);
    }
  }

  /** With no edge of the vertex before the start, first_* either misses rightly or goes to the first row. */
  lemma FirstIsNotBehind(it: EdgeIter, id: nat, fp: nat, fr: nat, p: nat, b: nat, e: nat)
    requires Opened(it) && it.Valid() && p == it.PartOf(id)
    requires (b, e) == it.Row(id)
    requires fp <= |it.parts| && (if fp < |it.parts| then fr < |it.parts[fp]| else fr == 0)
    requires forall k :: 0 <= k < Pos(it.parts, fp, fr) && k < |Edges(it)| ==> Key(it.adjListType, Edges(it)[k]) != id
    ensures FirstOutcome(it.info, it.parts, fp, fr, p, b, e) == if b < e then ToRow else Missing
    ensures b >= e ==> forall k :: 0 <= k < |Edges(it)| ==> Key(it.adjListType, Edges(it)[k]) != id
    ensures b < e ==> p < |it.parts| && b < |it.parts[p]| && Pos(it.parts, fp, fr) <= Pos(it.parts, p, b) < |Edges(it)|
    ensures b < e ==> Key(it.adjListType, Edges(it)[Pos(it.parts, p, b)]) == id
    ensures b < e ==> forall k :: 0 <= k < Pos(it.parts, p, b) ==> Key(it.adjListType, Edges(it)[k]) != id
  {
    hide Steps, ChunkBase, ChunkCount, Stores, Flatten, SortedByKey, AllInPart, Pos;
    if p >= |it.parts| {
      NoRowsInFlat(it, id);
    } else {
      RowsInFlat(it, id, p, b, e);
      PosAdds(it.parts, p, b);
      PosAdds(it.parts, p, e);
      PosAdds(it.parts, fp, fr);
      if b < e {
        RowInFlat(it.parts, p, b);
        if p < fp {
          PosMonotone(it.parts, p, fp);
          PosAdds(it.parts, p, |it.parts[p]|);
        } else if fp < p {
          PosMonotone(it.parts, fp, p);
          PosAdds(it.parts, fp, |it.parts[fp]|);
        }
      }
    }
  }
}
