# GraphAr: a model and proofs

GraphAr stores property graphs as chunk files: the edges of an adjacency list are partitioned
by vertex chunk, sorted (for ordered lists), cut into edge chunks of fixed size, and indexed by
one offset table per part. Metadata files (YAML) describe vertex types, edge types and the graph.
This project models, in Dafny, the code that writes and reads that layout, the example graph
algorithms that run on it, the label filter, the metadata objects, the import tool's checks, and
the bracket matcher of the vendored linter; and it proves what they are for.

`dafny verify dfyconfig.toml` checks everything. There is no I/O: files are maps from a key or a
path to a value, a missing key is a failed read, and a C++ exception is a failure value.

## The parts

| files | what they hold |
|---|---|
| `Graph`, `Components*`, `Bfs*`, `PageRank` | edge lists with a row cursor, and the examples: two component algorithms, four breadth-first searches, PageRank over the reals |
| `Arith`, `EdgeLayout`, `EdgesBuilder` | chunk arithmetic, the layout as a predicate on files, and the builder that writes it |
| `ChunkCursor`, `ChunkReaders` | the chunk readers as a state machine, and as classes proved against it |
| `ArrowReading` | reading a list or a vertex chunk by chunk with the arrow reader |
| `EdgeIter`, `StoredRows` | the high-level edge iterator with its chunk reader, and the stored collection it walks as one sorted list |
| `StoredGraph`, `StoredExamples` | the pieces joined: write edges, open the stored collection, iterate, visit a vertex, run the stream examples, push and pull BFS and push components |
| `Disk` | the files of the layout under the paths of `Paths` |
| `LabelFilter` | batched label columns, the row filter, the bitmap |
| `Results`, `Types`, `Joining`, `Version`, `KeyIndex`, `PropertyGroups`, `GraphInfo`, `InfoYaml`, `GraphYaml`, `Paths` | metadata: names, indices, validity, lookups, dump and load, file paths |
| `Import` | column checks, key resolution, edge counting of the command line tool |
| `Brackets` | the linter's forward and backward bracket scanners |

## What holds only under a condition

For each of these the exact condition, or the exact outcome, is proved for all inputs.

- Iterating over an edge collection (`EdgeIters.CollectEdges`, `EdgeIters.VisitRow`, `StoredGraphs.WriteAndIterate`): `operator++`
  waits for a KeyError at the end of a part, but `seek` returns IndexError when the part's edge
  count is a positive multiple of the chunk size. The iterator then stays behind the part and the
  next `source()` throws. Iteration is complete iff no part ends on a full chunk. `StoredGraphs` states
  this for edges written by the builder, in terms of the edges alone (input: `StoredGraphs.IterationThrows`).
- The examples that walk rows throw for the same reason (`StoredExamples`): push BFS iff a vertex
  reachable from the root has edges that are the last of a vertex chunk with a full tail; pull BFS
  iff such a vertex, other than the root, has no edge from the root; push components iff any vertex
  chunk has a full tail in either order. Both searches also throw in `to_begin` when there are no edges.
- `first_src(from, id)` and `first_dst(from, id)` with `from` behind a full tail: the end of the vertex's rows then has
  the global index of the next part's first chunk, so the search answers true and jumps back, or stays
  at a row of another vertex (`EdgeIters.EdgeIter.FirstAligned`: iff `Wraps`; input: `EdgeIters.FirstJumpsBack`).
- `next_src(id)` and `next_dst(id)` after an empty part: `operator++` adds one to `vertex_chunk_index_` however many
  parts `next_chunk` skips, and the search refreshes to that index when it starts in the middle of
  the vertex's rows (`EdgeIters.EdgeIter.NextTo`: right iff no empty part was skipped since the last
  placement; inputs: `EdgeIters.NextToThrows`, `EdgeIters.NextToReadsWrongRow`).
- `AdjListChunkInfoReader::seek` after `next_chunk` ran past the end uses the count of the last
  part (`ChunkCursor.SeekAfterEndIsStale`): an OK names a chunk iff the reader is not past the end
  (`ChunkReaders.RunTracks`, for all runs).
- `AdjListArrowChunkReader::seek_chunk_index` keeps the sought row when the chunk index does not change. After
  `next_chunk` ran past the end that row lies in another chunk (`EdgeIters.AdjListArrowChunkReader.SeekChunkIndex`: iff the
  index is the same and the row was already left behind).
- `GraphInfo::GetEdgeInfo` looks a joined key up, so it can return an edge info of other types
  (`GraphInfos.EdgeLookupExactIff`: iff a stored type name holds the separator).
- Data types such as `list<bool>` or user-defined ones are written but cannot be read
  (`Types.TypeNameReadsBack`), which decides every metadata round trip.
- `AddVertex` and `AddEdge` lose the graph's extra info (`GraphInfos.AddVertex`).
- A property group with prefix `adj_list/` shares paths with the topology (`Paths.SharedListPrefix`).
- `get_edge_count` divides by the source chunk size whatever the list (`Imports.EdgeCountRightIff`;
  inputs: `Imports.EdgeCountMisses`, `Imports.EdgeCountThrows`).

## Model

| member | source | states |
|---|---|---|
| `Components.MinLabelsUnique` | cpp/examples/cc_push_example.cc:57-104 | two minimum labellings of one edge multiset are equal, so the push and the stream example agree on the same edges in any order |
| `Components.SoundUpdate` | cpp/examples/cc_stream_example.cc:62-68 | copying a smaller label along an edge keeps every label a vertex of the own component |
| `Components.StableIsMinimal` | cpp/examples/cc_stream_example.cc:70-71 | a sound labelling that no edge can lower is the smallest vertex id of each weakly connected component |
| `Components.SameLabelSameComponent` | cpp/examples/cc_push_example.cc:106-114 | two vertices have equal minimum labels iff their components are the same vertex set |
| `Components.LabelsCountComponents` | cpp/examples/cc_push_example.cc:106-114 | there are as many distinct labels as components, below every vertex bound |
| `Components.CountComponents` | cpp/examples/cc_push_example.cc:106-114 | the hash-set count is the number of weakly connected components |
| `ComponentsPush.Relax` | cpp/examples/cc_push_example.cc:80-86 | lowering a neighbour and activating it keeps the sweep invariant (every half-edge that can still lower a label starts in the next frontier or at an unprocessed place of the current one; count is the size of the next frontier) and lowers the label sum |
| `ComponentsPush.PassOutgoing` | cpp/examples/cc_push_example.cc:78-87 | an outgoing half-edge that lowers nothing may be passed |
| `ComponentsPush.PassIncoming` | cpp/examples/cc_push_example.cc:91-100 | the same for an incoming half-edge, walked in the other ordering |
| `ComponentsPush.Push` | cpp/examples/cc_push_example.cc:80-86 | one edge step on the arrays keeps invariant and progress and leaves the pushed label no larger |
| `ComponentsPush.PushOutgoing` | cpp/examples/cc_push_example.cc:77-88 | the do/while over a CSR row covers all its half-edges although labels change underneath |
| `ComponentsPush.PushIncoming` | cpp/examples/cc_push_example.cc:90-101 | the do/while over a CSC row covers all its half-edges |
| `ComponentsPush.SweepVertex` | cpp/examples/cc_push_example.cc:74-102 | after vertex vid the invariant holds for vid + 1, whether vid was active or not |
| `ComponentsPush.Sweep` | cpp/examples/cc_push_example.cc:70-103 | one iteration keeps soundness, leaves a next frontier that covers every improvable half-edge, counts it exactly, and lowers the label sum when the count is positive |
| `ComponentsPush.EmptyFrontierIsMinimal` | cpp/examples/cc_push_example.cc:70 | an empty covering frontier means the labels are final |
| `ComponentsPush.ConnectedComponents` | cpp/examples/cc_push_example.cc:57-115 | terminates for all edges with the smallest id of every weakly connected component, and counts the components |
| `ComponentsStream.Pass` | cpp/examples/cc_stream_example.cc:60-69 | a pass keeps soundness; it lowers the label sum if it changed anything, else the labels are stable |
| `ComponentsStream.ConnectedComponents` | cpp/examples/cc_stream_example.cc:53-83 | terminates with the same minimum labelling and component count |
| `Bfs.ShortestDistancesUnique` | cpp/examples/bfs_stream_example.cc:51-69 | shortest distances are determined by the edge multiset, so the four searches give one array |
| `Bfs.ExpandKeepsExact` | cpp/examples/bfs_stream_example.cc:57-69 | one level expansion makes the distances exact one level further |
| `Bfs.FixpointIsShortest` | cpp/examples/bfs_stream_example.cc:67-68 | an expansion that labels nothing means every label is a shortest distance and -1 means unreachable |
| `Bfs.LabelStep` | cpp/examples/bfs_pull_example.cc:68-71 | labelling a vertex in the middle of a sweep never enables a second label in the same sweep |
| `Bfs.SweptIsExpand` | cpp/examples/bfs_push_example.cc:61-74 | an in-place sweep that settled every edge equals the simultaneous level expansion |
| `BfsStream.Pass` | cpp/examples/bfs_stream_example.cc:59-65 | a pass over the edges in any order is one level expansion, and count is the number of vertices it labelled |
| `BfsStream.BfsDistances` | cpp/examples/bfs_stream_example.cc:51-69 | terminates with shortest directed distances from root, -1 iff unreachable |
| `BfsPush.ExpandRow` | cpp/examples/bfs_push_example.cc:63-72 | walking one CSR row settles all its edges with the cursor the code reuses |
| `BfsPush.Sweep` | cpp/examples/bfs_push_example.cc:58-78 | the top-down sweep is the same level expansion: vertices labelled in it are not expanded in it |
| `BfsPush.BfsDistances` | cpp/examples/bfs_push_example.cc:51-78 | terminates with shortest distances |
| `BfsPull.ProbeRow` | cpp/examples/bfs_pull_example.cc:63-73 | probing one CSC row with the early break labels the vertex iff an in-neighbour is on the current level |
| `BfsPull.Sweep` | cpp/examples/bfs_pull_example.cc:58-79 | the bottom-up sweep with early break and in-place updates is the same level expansion |
| `BfsPull.BfsDistances` | cpp/examples/bfs_pull_example.cc:51-79 | terminates with shortest distances |
| `BfsFather.AdoptStep` | cpp/examples/bfs_father_example.cc:64-68 | giving a newly reached vertex its distance and father keeps the parent tree |
| `BfsFather.Pass` | cpp/examples/bfs_father_example.cc:62-69 | one pass is a level expansion that keeps the parent tree |
| `BfsFather.BfsParents` | cpp/examples/bfs_father_example.cc:51-73 | terminates with shortest distances and a parent array in which every father is one edge and one level nearer |
| `BfsFather.AncestorIsRoot` | cpp/examples/bfs_father_example.cc:54-68 | following fathers reaches root in exactly distance[v] steps |
| `BfsFather.EmitTree` | cpp/examples/bfs_father_example.cc:151-156 | the emission loop adds exactly the tree edges, in order of their heads |
| `BfsFather.TreeSpans` | cpp/examples/bfs_father_example.cc:151-156 | the emitted edges are graph edges, keep every shortest distance, reach nothing else, number one per reached vertex other than root, and no two have one head |
| `BfsFather.BfsTree` | cpp/examples/bfs_father_example.cc:51-156 | the three results of the whole example together |
| `PageRank.OutDegreePositive` | cpp/examples/pagerank_example.cc:64-72 | the source of an edge never has out-degree zero, so the division is defined |
| `PageRank.ReceivedIsSent` | cpp/examples/pagerank_example.cc:70-73 | what all vertices receive over the edges is what all vertices send: the double count by target and by source |
| `PageRank.OutflowIsDegreeTimesShare` | cpp/examples/pagerank_example.cc:70-73 | a vertex sends its share once per outgoing edge |
| `PageRank.SentOrDangling` | cpp/examples/pagerank_example.cc:72-78 | the whole rank is either sent over edges or held by vertices without outgoing edges |
| `PageRank.OutDegreeCounts` | cpp/examples/pagerank_example.cc:64-67 | the out-degree is the number of edges that leave the vertex |
| `PageRank.InflowIsSum` | cpp/examples/pagerank_example.cc:70-73 | what a vertex receives is the sum over all vertices u of u's share, once per edge from u |
| `PageRank.RankEquation` | cpp/examples/pagerank_example.cc:53-82 | the next rank of v is the damped sum over all u of (number of edges from u to v) * rank(u) / outdegree(u), plus the teleport share, plus its damped own rank if no edge leaves it; the first rank is 1/n |
| `PageRank.SourceRank` | cpp/examples/pagerank_example.cc:68-82 | a vertex with outgoing and no incoming edges has exactly the teleport share after every iteration |
| `PageRank.RanksOfSameEdges` | cpp/examples/pagerank_example.cc:68-82 | the ranks do not depend on the order of the edges |
| `PageRank.IterateKeepsMass` | cpp/examples/pagerank_example.cc:68-82 | an iteration keeps the rank sum 1, dangling vertices included |
| `PageRank.RankMassConserved` | cpp/examples/pagerank_example.cc:68-82 | after every number of iterations the ranks sum to 1 |
| `PageRank.RankLowerBound` | cpp/examples/pagerank_example.cc:75-78 | ranks are never negative, and at least (1 - damping)/n after the first iteration |
| `PageRank.Scatter` | cpp/examples/pagerank_example.cc:70-73 | the edge loop accumulates exactly the inflow of every vertex, which InflowIsSum gives in terms of the graph |
| `PageRank.Apply` | cpp/examples/pagerank_example.cc:74-81 | the vertex loop replaces the ranks by the next iterate and clears the accumulator |
| `PageRank.ComputePageRank` | cpp/examples/pagerank_example.cc:53-82 | the arrays end as the tenth iterate, which RankEquation gives in terms of the graph, with sum 1, the lower bound, and exactly 0.15/n for a vertex that is only a source |
| `EdgeLayout.OffsetSelectsVertex` | cpp/src/graphar/reader_util.cc:82-117 | for every vertex of a stored part the returned [begin, end) selects exactly that vertex's edges |
| `EdgeLayout.OffsetSplitsPart` | cpp/src/graphar/reader_util.cc:82-117 | the begin offset is where the edges of vertices below the id end, whether the vertex has an edge or not |
| `EdgeLayout.OffsetFails` | cpp/src/graphar/reader_util.cc:86-97 | Invalid for an unordered list; a failed read without the offset file |
| `EdgeLayout.OffsetsTilePart` | cpp/src/graphar/reader_util.cc:82-117 | neighbouring ranges meet, the first starts at 0, the last ends at the part's end |
| `EdgeLayout.VertexInPart` | cpp/src/graphar/reader_util.cc:146-164 | every id below vertex_count lies in an existing part (the rounded-up count is right) |
| `EdgesBuilders.PartsHoldEdges` | cpp/src/graphar/high-level/edges_builder.h:387-400 | partitioning by vertex chunk loses and invents no edge |
| `EdgesBuilders.PartOfIsSubsequence` | cpp/src/graphar/high-level/edges_builder.h:387-400 | a part holds exactly the edges of its vertex chunk, in the order they were added |
| `EdgesBuilders.SortByKey` | cpp/src/graphar/high-level/edges_builder.cc:46-50 | the sorted collection is a sorted permutation |
| `EdgesBuilders.GetOffsetTable` | cpp/src/graphar/high-level/edges_builder.cc:320-350 | entry k of the table splits the sorted part into the edges of vertices below first + k and the rest |
| `EdgesBuilders.WriteTable` | cpp/src/graphar/arrow/chunk_writer.cc:877-889 | a part becomes exactly its rounded-up number of chunk files, each the right slice, other files untouched |
| `EdgesBuilders.FilesStore` | cpp/src/graphar/high-level/edges_builder.cc:41-81 | what the loops of Dump write for each collection adds up to the prescribed layout |
| `EdgesBuilders.EdgesBuilder.AddEdge` | cpp/src/graphar/high-level/edges_builder.h:273-282 | the edge joins the collection of its vertex chunk; the collections stay the partition of everything added |
| `EdgesBuilders.EdgesBuilder.FillEmptyParts` | cpp/src/graphar/high-level/edges_builder.cc:36-40 | every vertex chunk has a collection, the partition is unchanged |
| `EdgesBuilders.EdgesBuilder.SortParts` | cpp/src/graphar/high-level/edges_builder.cc:42-58 | every collection is sorted without loss and has its offset table, in any map order |
| `EdgesBuilders.EdgesBuilder.WriteTables` | cpp/src/graphar/high-level/edges_builder.cc:74-81 | the chunk files of all collections and no others; the collections are cleared |
| `EdgesBuilders.EdgesBuilder.CountEdges` | cpp/src/graphar/high-level/edges_builder.cc:64-72 | there is one edge_count file per part and no other, and each holds the size of its collection |
| `EdgesBuilders.EdgesBuilder.Dump` | cpp/src/graphar/high-level/edges_builder.cc:29-84 | one edge_count file per part; for keys below the vertex count the files store a partition of exactly the added edges |
| `EdgesBuilders.WriteEdges` | cpp/src/graphar/high-level/edges_builder.cc:29-84 | adding a whole list and dumping stores a partition of it, each part as large as its vertex chunk has edges; an unordered list keeps the order of adding within each part |
| `ChunkCursor.SeekIsExact` | cpp/src/graphar/chunk_info_reader.cc:198-206 | seek moves to the chunk that holds the offset; in an existing part it answers OK iff the chunk exists; past the end an OK never names a chunk |
| `ChunkCursor.SeekAfterEndIsStale` | cpp/src/graphar/chunk_info_reader.cc:198-206 | an input on which a bare seek after the end answers OK from a stale count |
| `ChunkCursor.SeekVertexKeepsSynced` | cpp/src/graphar/chunk_info_reader.cc:133-196 | seek_src and seek_dst keep the cached count right; Invalid exactly on the wrong direction; OK only on an existing chunk of the vertex's part |
| `ChunkCursor.SeekVertexLands` | cpp/src/graphar/chunk_info_reader.cc:133-196 | where a vertex seek leads from any state: nowhere in the wrong direction or beyond the last part; else to the vertex's part, in an unordered list to chunk 0, in an ordered one to the chunk of the first row whose key is not below id; OK iff that chunk exists, for an unordered list iff the part is not empty |
| `ChunkCursor.SeekVertexFindsFirstEdge` | cpp/src/graphar/chunk_info_reader.cc:141-162 | on an ordered list, from any state, the aligned seek of a vertex with an edge lands on the chunk and row of its first edge |
| `ChunkCursor.SeekVertexFailsExactly` | cpp/src/graphar/chunk_info_reader.cc:188-195 | for a vertex of an existing part the aligned seek fails iff its offset is the end of a part of whole chunks (an empty part included) |
| `ChunkCursor.SkipFindsLeast` | cpp/src/graphar/chunk_info_reader.cc:217-228 | skipping a run of empty parts terminates at the least existing chunk not before the position |
| `ChunkCursor.NextIsSuccessor` | cpp/src/graphar/chunk_info_reader.cc:215-230 | next_chunk moves to the least existing chunk after the current one, and fails iff there is none |
| `ChunkCursor.EndIsFinal` | cpp/src/graphar/chunk_info_reader.cc:215-230 | after a failure every later next_chunk fails |
| `ChunkCursor.ChunksFromExact` | cpp/src/graphar/chunk_info_reader.cc:215-230 | the list of chunks to visit names every existing chunk from the position on and nothing else |
| `ChunkCursor.ChunksFromIncrease` | cpp/src/graphar/chunk_info_reader.cc:215-230 | it is strictly increasing in (part, chunk), so nothing is visited twice |
| `ChunkCursor.NextTakesHead` | cpp/src/graphar/chunk_info_reader.cc:215-230 | next_chunk takes the head of that list |
| `ChunkCursor.ReadAllChunks` | cpp/src/graphar/chunk_info_reader.cc:208-230 | reading the listed chunk files in order yields all parts one after another |
| `ChunkReaders.AdjListChunkInfoReader.constructor` | cpp/src/graphar/chunk_info_reader.cc:113-131 | the reader starts at (0, 0) with the count of part 0 |
| `ChunkReaders.AdjListChunkInfoReader.Seek` | cpp/src/graphar/chunk_info_reader.cc:198-206 | fields and status follow the specified seek |
| `ChunkReaders.AdjListChunkInfoReader.SeekSrc` | cpp/src/graphar/chunk_info_reader.cc:133-164 | fields and status follow the specified vertex seek, by source |
| `ChunkReaders.AdjListChunkInfoReader.SeekDst` | cpp/src/graphar/chunk_info_reader.cc:166-196 | the same by destination |
| `ChunkReaders.AdjListChunkInfoReader.NextChunk` | cpp/src/graphar/chunk_info_reader.cc:215-230 | the loop over empty parts follows the specified successor step |
| `ChunkReaders.AdjListPropertyChunkInfoReader.constructor` | cpp/src/graphar/chunk_info_reader.cc:339-359 | the property reader starts in the same state |
| `ChunkReaders.AdjListPropertyChunkInfoReader.Seek` | cpp/src/graphar/chunk_info_reader.cc:425-434 | as for the adjacency list reader |
| `ChunkReaders.AdjListPropertyChunkInfoReader.SeekSrc` | cpp/src/graphar/chunk_info_reader.cc:361-391 | as for the adjacency list reader |
| `ChunkReaders.AdjListPropertyChunkInfoReader.SeekDst` | cpp/src/graphar/chunk_info_reader.cc:393-423 | as for the adjacency list reader |
| `ChunkReaders.AdjListPropertyChunkInfoReader.NextChunk` | cpp/src/graphar/chunk_info_reader.cc:444-462 | as for the adjacency list reader |
| `ChunkReaders.RunTracks` | cpp/src/graphar/chunk_info_reader.cc:133-230 | in every run, whatever its operations, the cached count is that of the current part, or of the last part past the end, and an OK names an existing chunk iff the reader is not past the end |
| `ChunkReaders.RunStaysSynced` | cpp/src/graphar/chunk_info_reader.cc:133-230 | in every run without a bare seek past the end the cached count is right after each step, and each OK names an existing chunk |
| `ChunkReaders.RunInLockstep` | cpp/src/graphar/chunk_info_reader.cc:361-462 | driven by one operation sequence the two readers give equal statuses and stay at one (part, chunk) |
| `ChunkReaders.ListChunks` | cpp/src/graphar/chunk_info_reader.cc:208-230 | repeated next_chunk from the start visits exactly all existing chunks in order, then ends |
| `ChunkReaders.WriteAndReadBack` | cpp/src/graphar/high-level/edges_builder.cc:29-84 | adding edges, dumping, and reading all chunks returns the same edge multiset, sorted for ordered lists |
| `EdgeIters.PairToGlobal` | cpp/src/graphar/util.h:170-177 | the global index of (part, chunk) is the number of chunks in earlier parts plus the chunk |
| `EdgeIters.GlobalToPair` | cpp/src/graphar/util.h:180-191 | converting back names the part and chunk of an existing global index |
| `EdgeIters.GlobalOrder` | cpp/src/graphar/util.h:170-191 | global indices are ordered as (part, chunk) |
| `EdgeIters.AdjListArrowChunkReader.constructor` | cpp/src/graphar/arrow/chunk_reader.cc:513-531 | the reader starts at part 0 with an uninitialised chunk count |
| `EdgeIters.AdjListArrowChunkReader.Seek` | cpp/src/graphar/arrow/chunk_reader.cc:612-630 | moves to the chunk of an offset, reading the chunk count when it is unknown; IndexError iff the count does not reach that chunk; the cached table stays the current chunk's |
| `EdgeIters.AdjListArrowChunkReader.SeekSrc` | cpp/src/graphar/arrow/chunk_reader.cc:547-578 | Invalid in a list by destination; IndexError without a move beyond the last part; else the vertex's part at row 0 or, in an ordered list, at the first row whose key is not below id; OK iff the chunk of that row exists |
| `EdgeIters.AdjListArrowChunkReader.SeekDst` | cpp/src/graphar/arrow/chunk_reader.cc:580-610 | the same by destination |
| `EdgeIters.AdjListArrowChunkReader.SeekChunkIndex` | cpp/src/graphar/arrow/chunk_reader.cc:673-686 | moves to any chunk of a part, with the right chunk count; the sought row becomes the first of the chunk iff the chunk index changes |
| `EdgeIters.AdjListArrowChunkReader.NextChunk` | cpp/src/graphar/arrow/chunk_reader.cc:652-671 | moves to the first row of the next existing chunk, skipping empty parts, else IndexError with the sought row left behind; from an uninitialised reader too |
| `EdgeIters.AdjListArrowChunkReader.GetRowNumOfChunk` | cpp/src/graphar/arrow/chunk_reader.cc:688-698 | the number of rows of the current chunk, or a failure iff there is no such chunk |
| `EdgeIters.AdjListArrowChunkReader.GetChunk` | cpp/src/graphar/arrow/chunk_reader.cc:632-650 | the rows of the current chunk from the sought offset on, or a failure iff there is no such chunk |
| `EdgeIters.NextOffset` | cpp/src/graphar/high-level/graph_reader.h:596-612 | what the next offset is: inside the chunk, at a new chunk, past a partial tail, or past a full tail |
| `EdgeIters.EdgeIter.Begin` | cpp/src/graphar/high-level/graph_reader.h:505-534 | a begin iterator stands at row 0 of the first non-empty part, or at the end |
| `EdgeIters.EdgeIter.Current` | cpp/src/graphar/high-level/graph_reader.cc:697-711 | source and destination of the row the iterator stands at; an iterator past a full tail throws |
| `EdgeIters.EdgeIter.SeekNextOffset` | cpp/src/graphar/high-level/graph_reader.h:596-606 | seek reports IndexError, not KeyError, behind a part of whole chunks |
| `EdgeIters.EdgeIter.EnterNextChunk` | cpp/src/graphar/high-level/graph_reader.h:607-612 | a new chunk begins exactly at a multiple of the chunk size |
| `EdgeIters.EdgeIter.EnterNextPart` | cpp/src/graphar/high-level/graph_reader.h:613-626 | a KeyError moves to row 0 of the next non-empty part, or to the end; vertex_chunk_index_ grows by one, however many empty parts are skipped |
| `EdgeIters.EdgeIter.Increment` | cpp/src/graphar/high-level/graph_reader.h:590-628 | ++ goes to the next row, to the next part, or, exactly behind a part of whole chunks, gets stuck; vertex_chunk_index_ grows by one exactly on leaving a part |
| `EdgeIters.StepsLag` | cpp/src/graphar/high-level/graph_reader.h:613-616 | one step per non-empty part since the last placement never leads beyond the reader's part, and leads to it iff no empty part was skipped |
| `EdgeIters.IndexIsReadersIff` | cpp/src/graphar/high-level/graph_reader.h:613-616 | so vertex_chunk_index_ of an iterator equals the reader's part iff no empty part was skipped since the last placement, and otherwise lags |
| `EdgeIters.EdgeIter.Refresh` | cpp/src/graphar/high-level/graph_reader.h:790-798 | the reader is brought to vertex_chunk_index_; throws iff that part has no chunk for the offset |
| `EdgeIters.EdgeIter.ToBegin` | cpp/src/graphar/high-level/graph_reader.h:697-704 | row 0 of the first non-empty part; throws iff there is no edge |
| `EdgeIters.FromAgainstRow` | cpp/src/graphar/high-level/graph_reader.cc:800-825 | the comparisons of global chunk indices and offsets decide as FirstOutcome says: the vertex's first row, the start itself, or nothing, for a start at any row, behind a full tail, or at the end |
| `EdgeIters.OutcomeIsRight` | cpp/src/graphar/high-level/graph_reader.cc:800-825 | that decision misses nothing, and finds something that is not there exactly when the start lies in the first chunk behind a full tail that the vertex's rows end (Wraps) |
| `EdgeIters.EdgeIter.FirstAligned` | cpp/src/graphar/high-level/graph_reader.cc:779-826 | first_src/first_dst on the matching ordered list, from any start: the outcome in every case (unchanged, at the first row, or at the start refreshed, which may throw); the answer is the first row of the vertex at or after the start iff not Wraps and, in the middle of the rows, the start's vertex_chunk_index_ is its part |
| `EdgeIters.FirstJumpsBack` | cpp/src/graphar/high-level/graph_reader.cc:800-825 | an input on which a search from behind a full tail answers true and jumps back |
| `EdgeIters.EdgeIter.NextTo` | cpp/src/graphar/high-level/graph_reader.h:770-786 | next_src(id)/next_dst(id): right iff the step does not lead into Wraps and, when it leads into the middle of the vertex's rows, no empty part was skipped since the last placement; otherwise it throws or continues in the part the lagging index names |
| `EdgeIters.EdgeIter.FirstFromHere` | cpp/src/graphar/high-level/graph_reader.h:770-786 | the search from the iterator itself, with the same condition |
| `EdgeIters.NextToThrows` | cpp/src/graphar/high-level/graph_reader.h:770-776 | an input on which the index lags onto an empty part, so next_src(id) throws |
| `EdgeIters.NextToReadsWrongRow` | cpp/src/graphar/high-level/graph_reader.h:770-776 | an input on which the index lags onto another vertex's rows |
| `EdgeIters.EdgeIter.NextAligned` | cpp/src/graphar/high-level/graph_reader.h:710-720 | next_src/next_dst on the matching ordered list: true iff the next row has the same key; throws behind a full tail |
| `EdgeIters.CollectEdges` | cpp/src/graphar/high-level/graph_reader.h:590-668 | the loop from begin to end delivers every stored edge once in storage order iff no part ends on a full chunk, and otherwise throws |
| `EdgeIters.WalkRow` | cpp/src/graphar/high-level/graph_reader.h:710-764 | do/while from the first row of a vertex visits exactly its rows, failing iff they end a part of whole chunks |
| `EdgeIters.VisitRow` | cpp/src/graphar/high-level/graph_reader.cc:713-941 | first_* and next_* together visit exactly the rows of any vertex id; they fail iff the rows end a part of whole chunks |
| `EdgeIters.FirstFromBegin` | cpp/src/graphar/high-level/graph_reader.cc:779-826 | from begin, first_* is true iff the vertex has an edge |
| `ArrowReading.ReadOn` | cpp/examples/mid_level_reader_example.cc:243-246 | GetChunk and next_chunk in turn deliver every row from the sought one to the end of the list, over any run of empty parts |
| `ArrowReading.ReadAll` | cpp/examples/mid_level_reader_example.cc:227-246 | from a fresh reader the same loop delivers the whole list in storage order |
| `ArrowReading.ReadFromVertex` | cpp/examples/mid_level_reader_example.cc:234-246 | after seek_src or seek_dst the loop delivers every edge of the vertex as often as it is stored, in an ordered list first of all; a failed seek means it has none |
| `ArrowReading.SeekReadsVertex` | cpp/src/graphar/chunk_info_reader.cc:133-230 | the same for the chunk info readers, from any state and for every list type |
| `StoredRows.ReadChunkNums` | cpp/src/graphar/high-level/graph_reader.h:906-934 | the chunk counts read when a collection is made are the rounded-up counts of the stored parts |
| `StoredRows.PartOfEdge` | cpp/src/graphar/high-level/graph_reader.h:906-934 | an edge of the collection lies in the part of its vertex chunk and in no other |
| `StoredRows.NextInFlat` | cpp/src/graphar/high-level/graph_reader.h:590-628 | the row after a row, in the sorted list of all edges, is the next row of its part or the first of a later part, whose key differs |
| `StoredRows.TailAtRow` | cpp/src/graphar/high-level/graph_reader.h:596-606 | a place of the sorted list ends a full tail iff it is the last row of a part of whole chunks |
| `StoredRows.Open` | cpp/src/graphar/high-level/graph_reader.h:906-934 | a begin iterator over written edges stands at place 0 of their sorted list |
| `StoredRows.Read` | cpp/src/graphar/high-level/graph_reader.cc:697-711 | reads the edge of its place |
| `StoredRows.Rewind` | cpp/src/graphar/high-level/graph_reader.h:697-704 | to_begin: back to place 0; throws iff there is no edge |
| `StoredRows.Next` | cpp/src/graphar/high-level/graph_reader.h:710-764 | next_src/next_dst: one place on, true iff the key stays; throws iff the place ends a full tail |
| `StoredRows.First` | cpp/src/graphar/high-level/graph_reader.cc:779-826 | first_src/first_dst from any place with no edge of the vertex before it: never throws, true iff the vertex has an edge, and then at its first edge |
| `StoredGraphs.WriteAndIterate` | cpp/src/graphar/high-level/graph_reader.h:829-934 | writing edges and iterating over the stored collection delivers the same edge multiset iff no vertex chunk has a positive multiple of the edge chunk size as its number of edges, and otherwise throws |
| `StoredGraphs.IterationThrows` | cpp/src/graphar/high-level/graph_reader.h:596-606 | an input on which the iteration throws |
| `StoredGraphs.WriteAndVisit` | cpp/src/graphar/high-level/graph_reader.cc:713-941 | writing edges and visiting a vertex with first_* and next_* delivers exactly the edges written for it, each as often as written, unless they are the last of a vertex chunk with a full tail; then it throws |
| `StoredGraphs.DistancesOfSameEdges` | cpp/examples/bfs_stream_example.cc:51-69 | shortest distances found on the stored order are those of the written edges |
| `StoredGraphs.LabelsOfSameEdges` | cpp/examples/cc_stream_example.cc:52-83 | likewise for labels and components |
| `StoredGraphs.StoredBfs` | cpp/examples/bfs_stream_example.cc:44-69 | write, open, search: the answer is the shortest distances of the written edges, or a throw under the condition of WriteAndIterate |
| `StoredGraphs.StoredComponents` | cpp/examples/cc_stream_example.cc:44-83 | write, open, label: minimum labels and component count of the written edges, or a throw under that condition |
| `StoredGraphs.StoredPageRank` | cpp/examples/pagerank_example.cc:43-82 | write, open, rank: the ranks of the written edges, or a throw under that condition |
| `StoredExamples.ExpandRow` | cpp/examples/bfs_push_example.cc:66-72 | the do/while over a row on the moving iterator settles the row, or throws iff the row ends a full tail |
| `StoredExamples.SweepPush` | cpp/examples/bfs_push_example.cc:60-74 | one sweep on one moving iterator is the level expansion; it throws iff a frontier vertex has a row that ends a full tail |
| `StoredExamples.PushDistances` | cpp/examples/bfs_push_example.cc:51-78 | shortest distances; throws iff there is no edge or a vertex reachable from root has a row that ends a full tail |
| `StoredExamples.ProbeRow` | cpp/examples/bfs_pull_example.cc:66-73 | the do/while with early break throws iff the row ends a full tail and no edge of it comes from the frontier |
| `StoredExamples.SweepPull` | cpp/examples/bfs_pull_example.cc:60-75 | one sweep on one moving iterator is the level expansion; it throws iff that holds of an unlabelled vertex |
| `StoredExamples.FirstSweepDecides` | cpp/examples/bfs_pull_example.cc:58-75 | the first sweep throws iff a vertex other than root has such a row without an edge from root |
| `StoredExamples.PullDistances` | cpp/examples/bfs_pull_example.cc:51-79 | shortest distances; throws iff there is no edge or the first sweep throws |
| `StoredExamples.SweepVertex` | cpp/examples/cc_push_example.cc:74-102 | one vertex on the two iterators keeps the sweep invariant; throws iff the vertex is active and has a row that ends a full tail in one of the orders |
| `StoredExamples.PushComponents` | cpp/examples/cc_push_example.cc:57-115 | minimum labels and component count; throws iff some vertex has such a row |
| `StoredExamples.TailRowIff` | cpp/src/graphar/high-level/graph_reader.h:596-606 | a vertex's row ends a full tail of the stored list iff its edges are the last of a vertex chunk with a full tail, read off the edges |
| `StoredExamples.FullTailsHaveRows` | cpp/src/graphar/high-level/graph_reader.h:596-606 | no vertex has such edges iff no vertex chunk has a positive multiple of the edge chunk size as its number of edges |
| `StoredExamples.StoredBfsPush` | cpp/examples/bfs_push_example.cc:41-78 | write, open, search by source: the shortest distances of the written edges; throws iff there are none or a reachable vertex's edges are the last of a vertex chunk with a full tail |
| `StoredExamples.StoredBfsPull` | cpp/examples/bfs_pull_example.cc:41-79 | write, open, search by destination: likewise; throws iff there are no edges or such a vertex other than root has no edge from root |
| `StoredExamples.StoredComponentsPush` | cpp/examples/cc_push_example.cc:45-115 | write both orders, open, label: minimum labels and component count of the written edges; throws iff a vertex chunk has a full tail in one of the orders |
| `StoredExamples.PushThrows` | cpp/examples/bfs_push_example.cc:62-72 | an input on which push BFS throws |
| `StoredExamples.PullThrows` | cpp/examples/bfs_pull_example.cc:62-73 | an input on which pull BFS answers from one root and throws from another |
| `Disks.OneFilePerPath` | cpp/src/graphar/graph_info.cc:697-760 | two files of one adjacency list have one path iff they are one file |
| `Disks.OtherListOtherPath` | cpp/src/graphar/graph_info.cc:697-737 | files of lists in different directories have different paths |
| `Disks.ReflectsUnique` | cpp/src/graphar/graph_info.cc:697-737 | a directory tree determines the files of a list |
| `Disks.Save` | cpp/src/graphar/arrow/chunk_writer.cc:877-889 | writing the files of a list under their paths, in any order, leaves exactly them there, and the files of lists in other directories as they were |
| `Disks.SaveEdges` | cpp/src/graphar/high-level/edges_builder.cc:29-84 | after adding edges and dumping, path adj_list/part<i>/chunk<j> holds chunk j of part i of a partition of the edges, and there is no other chunk |
| `LabelFilter.ReadBatch` | cpp/src/graphar/label.cc:79-81 | a batch copies between 1 and BATCH_SIZE rows to their place and nothing else |
| `LabelFilter.ReadColumn` | cpp/src/graphar/label.cc:75-85 | the batches rebuild one column of a row group |
| `LabelFilter.ReadRowGroup` | cpp/src/graphar/label.cc:56-87 | each tested column buffer grows by the row group, at the place its own count says |
| `LabelFilter.ReadFile` | cpp/src/graphar/label.cc:48-87 | after all row groups every buffer holds its label's whole column |
| `LabelFilter.StateAt` | cpp/src/graphar/label.cc:67-95 | entry k of the state of row r of row group g is row r of tested column k of that group |
| `LabelFilter.SelectsUnique` | cpp/src/graphar/label.cc:90-104 | at most one list of rows is right |
| `LabelFilter.ValidRowsExact` | cpp/src/graphar/label.cc:92-104 | the reference list has exactly the rows whose label vector satisfies the predicate, ascending |
| `LabelFilter.SetBitInWord` | cpp/src/graphar/label.h:51-53 | OR with a shifted one sets that bit and no other |
| `LabelFilter.SetBitInWords` | cpp/src/graphar/label.h:51-53 | the same across words addressed by index / 64 and index % 64 |
| `LabelFilter.SetBitmap` | cpp/src/graphar/label.h:51-53 | exactly one bit of the bitmap may change, to one |
| `LabelFilter.LoadState` | cpp/src/graphar/label.cc:93-95 | the state vector is the row's label vector |
| `LabelFilter.FilterRows` | cpp/src/graphar/label.cc:90-104 | count, appended indices and set bits all describe the same rows |
| `LabelFilter.GetValidIndices` | cpp/src/graphar/label.cc:31-113 | count, appended indices and set bits all describe the rows r of row groups g whose tested labels, read in columns[id][r], satisfy the predicate; only the requested output changes |
| `LabelFilter.BitsSetIsCount` | cpp/src/graphar/label.cc:101-112 | from a zero bitmap the number of set bits is the count |
| `Types.DecimalReadsBack` | cpp/src/graphar/graph_info.cc:468 | a decimal text reads back as its number |
| `Types.Int64ReadsBack` | cpp/src/graphar/graph_info.cc:403-404 | every int64 written as text is read back by the YAML conversion |
| `Types.TypeNameReadsBack` | cpp/src/graphar/types.cc:91-149 | a data type read from its own name is itself iff it is a basic type or a list of int32, int64, float, double or string |
| `Types.Int64Reads` | cpp/src/graphar/graph_info.cc:403-404 | blanks, sign, digits and anything behind them give the signed number, clipped to 64 bits |
| `Types.NumberAppend` | cpp/src/graphar/graph_info.cc:403-404 | digits count by their position |
| `Types.TypeNamesKnown` | cpp/src/graphar/types.cc:91-149 | the names of the types, and that every other text throws |
| `Types.FileTypeNamesKnown` | cpp/src/graphar/types.h:223-243 | the names of the file types, and that every other text throws |
| `Types.AlignedKnown` | cpp/src/graphar/types.h:197-205 | a list is ordered by its flag, and by source iff aligned_by is src; the names of the list types |
| `Versions.ParseIff` | cpp/src/graphar/version_parser.cc:66-77 | a text parses iff it is the tag, digits of value 1, and a tail on the same line; the tail gives the user types |
| `Versions.UserTypesBetween` | cpp/src/graphar/version_parser.cc:79-105 | the types stand in parentheses behind spaces, up to the last closing one |
| `Versions.NoUserTypesIn` | cpp/src/graphar/version_parser.cc:79-105 | without an opening parenthesis there or a closing one there are none |
| `Versions.PiecesSplit` | cpp/src/graphar/version_parser.cc:88-102 | a comma separates types; a blank one is dropped |
| `Versions.TrimCuts` | cpp/src/graphar/version_parser.cc:29-64 | trimming cuts the blanks on both sides, and nothing else |
| `Versions.PiecesListable` | cpp/src/graphar/version_parser.cc:79-105 | every parsed user type is non-empty, trimmed, on one line and free of commas |
| `Versions.VersionReadsBack` | cpp/src/graphar/version_parser.h:77-87 | parsing a printed version gives it back iff it is version 1 and its user types are of that kind |
| `Joining.TerminatedInjective` | cpp/src/graphar/graph_info.cc:45-50 | lists of separator-free names are determined by their joined form |
| `PropertyGroups.NewPropertyGroup` | cpp/src/graphar/graph_info.cc:92-101 | an empty prefix becomes the joined names with the last separator turned into a slash |
| `PropertyGroups.DefaultPrefixForm` | cpp/src/graphar/graph_info.cc:95-99 | the default prefix is the names in order, joined with underscores and closed with a slash |
| `PropertyGroups.DefaultPrefixInjective` | cpp/src/graphar/graph_info.cc:95-99 | default prefixes tell apart groups with separator-free names |
| `PropertyGroups.IsValidated` | cpp/src/graphar/graph_info.cc:116-143 | true iff prefix, file type, and non-empty distinct typed properties are right, and no list type is kept in CSV |
| `PropertyGroups.IndexIsScan` | cpp/src/graphar/graph_info.cc:205-216 | the four maps filled with emplace answer every name as a linear scan of the groups does |
| `PropertyGroups.IndexProperties` | cpp/src/graphar/graph_info.cc:205-216 | the nested loops build those maps |
| `PropertyGroups.LookupFinds` | cpp/src/graphar/graph_info.cc:305-364 | on valid groups looking a property up by name gives its group, flags and type |
| `PropertyGroups.LookupMisses` | cpp/src/graphar/graph_info.cc:305-364 | an unknown name is answered as absent by every lookup |
| `PropertyGroups.AppendValid` | cpp/src/graphar/graph_info.cc:366-381 | groups with one appended are valid iff it is valid and brings only new names |
| `PropertyGroups.AreValidated` | cpp/src/graphar/graph_info.cc:223-238 | the set-based check accepts iff every group is present and valid and no name occurs twice anywhere |
| `KeyIndex.LastIndexIs` | cpp/src/graphar/graph_info.cc:1098-1111 | a map filled by assignment gives the last position of each key |
| `KeyIndex.SizeTellsDistinct` | cpp/src/graphar/graph_info.cc:584-587 | list and index have equal size iff no entry is null and no key repeats |
| `GraphInfos.NewVertexInfo` | cpp/src/graphar/graph_info.cc:192-217 | the constructor sets the default prefix and the index of the groups |
| `GraphInfos.VertexIsValidated` | cpp/src/graphar/graph_info.cc:219-241 | true iff the sizes, names and groups are valid |
| `GraphInfos.AddVertexPropertyGroup` | cpp/src/graphar/graph_info.cc:366-381 | succeeds iff the group is present with only new names; keeps everything else; the result of a valid info is valid iff the group is |
| `GraphInfos.NewEdgeInfo` | cpp/src/graphar/graph_info.cc:513-554 | the constructor sets the default prefix and both indices |
| `GraphInfos.EdgeIsValidated` | cpp/src/graphar/graph_info.cc:556-589 | true iff all parts are valid and no adjacency list type repeats |
| `GraphInfos.AddEdgePropertyGroup` | cpp/src/graphar/graph_info.cc:815-832 | as for vertex infos |
| `GraphInfos.AddAdjacentList` | cpp/src/graphar/graph_info.cc:799-813 | succeeds iff the type is new; the result of a valid info is valid iff the list is |
| `GraphInfos.AdjacentListLookup` | cpp/src/graphar/graph_info.cc:666-673 | on a valid info the lookup by type is the linear scan |
| `GraphInfos.NewGraphInfo` | cpp/src/graphar/graph_info.cc:1087-1111 | the constructor builds both indices |
| `GraphInfos.GraphIsValidated` | cpp/src/graphar/graph_info.cc:1113-1132 | true iff all infos are present and valid and no vertex type or joined edge key repeats |
| `GraphInfos.AddVertex` | cpp/src/graphar/graph_info.cc:1229-1240 | succeeds iff the type is new; drops the extra info; the result of a valid graph is valid iff the vertex info is |
| `GraphInfos.AddEdge` | cpp/src/graphar/graph_info.cc:1242-1255 | succeeds iff the joined key is new; drops the extra info; the result of a valid graph is valid iff the edge info is |
| `GraphInfos.VertexLookup` | cpp/src/graphar/graph_info.cc:1172-1180 | on a valid graph the lookup by type is the linear scan |
| `GraphInfos.KeyOfSeparatorFree` | cpp/src/graphar/graph_info.cc:45-50 | a triple of separator-free names shares its joined key with no other triple |
| `GraphInfos.SharedKey` | cpp/src/graphar/graph_info.cc:45-50 | a triple with a separator in a name shares its joined key with another triple |
| `GraphInfos.EdgeLookupExactIff` | cpp/src/graphar/graph_info.cc:1182-1194 | on a valid graph every edge lookup equals the scan by the three types iff no stored type name holds the separator |
| `InfoYaml.DumpGroups` | cpp/src/graphar/graph_info.cc:477-494 | the nested loops write one node per group, with one node per property |
| `InfoYaml.LoadPropertyGroups` | cpp/src/graphar/graph_info.cc:425-449 | the loops read every group as GroupLoads says, in order, and throw iff a type or file type is unknown |
| `InfoYaml.LoadPropertyGroup` | cpp/src/graphar/graph_info.cc:429-448 | the loop reads one group as GroupLoads says |
| `InfoYaml.BoolReads` | cpp/thirdparty/mini-yaml/yaml/Yaml.hpp:110-134 | exactly the texts true, yes and 1, in any case, are true |
| `InfoYaml.PropertyLoads` | cpp/src/graphar/graph_info.cc:435-444 | for any node: loads iff the type name is known; name, type and primary flag are those of the entries; nullable iff not primary and is_nullable is absent or true |
| `InfoYaml.GroupLoads` | cpp/src/graphar/graph_info.cc:425-449 | for any node: loads iff file type and all types are known; the properties are those of the nodes, in order; without a prefix it is made of their names |
| `InfoYaml.VertexLoads` | cpp/src/graphar/graph_info.cc:397-452 | for any node: loads iff version and groups do; every field is that of its entry or its default; a bad version is Invalid, an unknown name throws |
| `InfoYaml.AdjListLoads` | cpp/src/graphar/graph_info.cc:879-892 | for any node: ordered iff the entry is true, by source iff aligned_by is src; without a prefix it is the type's name |
| `InfoYaml.EdgeLoads` | cpp/src/graphar/graph_info.cc:853-926 | for any node: the same for edge infos |
| `InfoYaml.PropertyReadsBack` | cpp/src/graphar/graph_info.cc:432-445 | a property reads back iff its type has a name and it is not both primary and nullable |
| `InfoYaml.GroupsReadBack` | cpp/src/graphar/graph_info.cc:425-494 | groups read back iff all their properties do |
| `InfoYaml.TextsReadBack` | cpp/src/graphar/graph_info.cc:470-476 | labels read back |
| `InfoYaml.DumpVertex` | cpp/src/graphar/graph_info.cc:459-502 | a tree for a valid info, Invalid otherwise |
| `InfoYaml.LoadVertex` | cpp/src/graphar/graph_info.cc:397-452 | the loops read the tree entry by entry as VertexLoads says, properties of every group included |
| `InfoYaml.VertexReadsBack` | cpp/src/graphar/graph_info.cc:397-502 | loading what a valid vertex info dumps gives an equal info, indices included, iff every property and the version read back |
| `InfoYaml.AdjListsReadBack` | cpp/src/graphar/graph_info.cc:879-892 | adjacency lists always read back |
| `InfoYaml.DumpEdge` | cpp/src/graphar/graph_info.cc:933-986 | a tree for a valid info, Invalid otherwise |
| `InfoYaml.LoadEdge` | cpp/src/graphar/graph_info.cc:853-926 | the loops read the tree entry by entry as EdgeLoads says |
| `InfoYaml.EdgeReadsBack` | cpp/src/graphar/graph_info.cc:853-986 | loading what a valid edge info dumps gives an equal info iff every property and the version read back |
| `GraphYaml.DumpPairs` | cpp/src/graphar/graph_info.cc:1325-1334 | the extra info is listed completely, in whatever order the hash map gives |
| `GraphYaml.ExtraInfoReadsBack` | cpp/src/graphar/graph_info.cc:1035-1043 | emplacing the listed pairs rebuilds the extra info for every order |
| `GraphYaml.LoadVertices` | cpp/src/graphar/graph_info.cc:1047-1058 | one info per named file, in order, each as VertexLoads says; the first file that is missing or bad decides the failure |
| `GraphYaml.LoadEdges` | cpp/src/graphar/graph_info.cc:1059-1069 | the same for edge files |
| `GraphYaml.PairsLoad` | cpp/src/graphar/graph_info.cc:1035-1043 | of nodes with one key the first gives the value |
| `GraphYaml.DumpGraph` | cpp/src/graphar/graph_info.cc:1295-1343 | a tree naming every vertex and edge file for a valid graph info, Invalid otherwise |
| `GraphYaml.ConstructGraphInfo` | cpp/src/graphar/graph_info.cc:1015-1081 | every field is that of its entry, of the named files or the default; the version, the first bad vertex file and the first bad edge file fail in this order |
| `GraphYaml.GraphReadsBack` | cpp/src/graphar/graph_info.cc:1015-1343 | with each info saved under its file name, loading the dumped graph info gives an equal one iff every info and the version read back |
| `Paths.BuildPath` | cpp/src/graphar/graph_info.cc:73-83 | each component ends in one slash |
| `Paths.GetVerticesNumFilePath` | cpp/src/graphar/graph_info.cc:697-703 | the path of the vertex_count file, or KeyError |
| `Paths.GetEdgesNumFilePath` | cpp/src/graphar/graph_info.cc:705-711 | the path of an edge_count file, or KeyError |
| `Paths.GetAdjListFilePath` | cpp/src/graphar/graph_info.cc:713-721 | the path of a topology chunk, or KeyError |
| `Paths.GetAdjListOffsetFilePath` | cpp/src/graphar/graph_info.cc:731-737 | the path of an offset chunk, or KeyError |
| `Paths.GetPropertyFilePath` | cpp/src/graphar/graph_info.cc:747-760 | the path of a property chunk; Invalid without group; KeyError without list |
| `Paths.PathsDetermineFiles` | cpp/src/graphar/graph_info.cc:697-760 | two files of an info share a path iff they are of one kind at one place: directory, part and chunk |
| `Paths.PathsInjectiveIff` | cpp/src/graphar/graph_info.cc:697-760 | all path getters together are injective up to closing slashes iff no two list/group directories meet and none is a topology directory |
| `Paths.InfoPathsInjectiveIff` | cpp/src/graphar/graph_info.cc:697-760 | the same for the prefixes of a valid edge info |
| `Paths.SharedListPrefix` | cpp/src/graphar/graph_info.cc:713-760 | with one list prefix they are injective iff no group prefix is adj_list or adj_list/ |
| `Paths.GetVertexFilePath` | cpp/src/graphar/graph_info.cc:280-287 | the path of a vertex property chunk, Invalid without group |
| `Paths.VertexPathsDetermineFiles` | cpp/src/graphar/graph_info.cc:280-299 | vertex chunk paths determine group (up to a slash) and chunk, and never meet vertex_count |
| `Imports.Validate` | cli/src/graphar_cli/importer.py:35-64 | accepts iff names are distinct, at most one is primary and not nullable, every name has a column, and the counts agree |
| `Imports.AcceptedColumnsArePermutation` | cli/src/graphar_cli/importer.py:52-64 | then the columns are a permutation of the property names |
| `Imports.TableToUnorderedMap` | cli/src/util.h:418-437 | succeeds iff the columns have one length and hold no null; each key maps to the value of its first row |
| `Imports.VertexIds` | cli/src/importer.h:341-343 | succeeds iff no key is null; then exactly the occurring keys map, each to its first row number |
| `Imports.AddRows` | cli/src/importer.h:475-499 | adds one edge per row between the vertex rows of its keys, and throws on the first key without row |
| `Imports.ImportEdges` | cli/src/importer.h:408-502 | succeeds iff all vertex keys are present and all edge keys occur; then the written files store exactly one edge per row, and the edge count is the number of rows iff CountReaches holds of the edges |
| `Imports.GetEdgeCount` | cli/src/main.cc:102-127 | sums the edge_count files below the vertex count divided by the source chunk size |
| `Imports.EdgeCountRightIff` | cli/src/main.cc:116-126 | the sum is the number of stored edges iff that division gives no more parts than exist and those it misses are empty |
| `Imports.ImportedCountIff` | cli/src/main.cc:116-126 | in terms of the edges: iff dividing by the source chunk size gives no more parts than the list has and every edge lies in one of them |
| `Imports.EdgeCountMisses` | cli/src/main.cc:116-126 | a list by destination whose count is 0 although it has an edge |
| `Imports.EdgeCountThrows` | cli/src/main.cc:116-126 | a list by destination whose count throws on a missing file |
| `Imports.EdgeCountOfImport` | cli/src/main.cc:116-126 | for lists by source, or equal chunk sizes, it is the number of imported edges |
| `Imports.GetAdjListTypes` | cli/src/main.cc:80-100 | the types an info has, each once and in order of preference, throwing on none |
| `Brackets.ScanAppend` | cpp/misc/cpplint.py:2103-2113 | scanning line by line with a carried stack is scanning the joined text |
| `Brackets.FoundIffMatched` | cpp/misc/cpplint.py:1997-2072 | from an opening bracket the scan stops at a position iff the text up to it is matched in the bracket grammar |
| `Brackets.ScanOutside` | cpp/misc/cpplint.py:2058-2068 | outside all brackets a closing bracket or a semicolon ends the scan |
| `Brackets.PendingCloses` | cpp/misc/cpplint.py:1997-2072 | a scan that runs off the text leaves exactly the unclosed brackets: closing them completes the match; after a mismatch nothing does |
| `Brackets.ScanBackIsScan` | cpp/misc/cpplint.py:2119-2193 | the backward scan is the forward scan of the mirrored text |
| `Brackets.FoundBackIffMatched` | cpp/misc/cpplint.py:2119-2193 | from a closing bracket the backward scan stops at a position iff the text from it is matched |
| `Brackets.CloseThenReverse` | cpp/misc/cpplint.py:1997-2193 | a bracket is closed at e by the forward scan iff the backward scan from e opens at it |
| `Brackets.FindEndOfExpressionInLine` | cpp/misc/cpplint.py:1997-2072 | one line, with the stack carried in and out |
| `Brackets.FindStartOfExpressionInLine` | cpp/misc/cpplint.py:2119-2193 | one line backwards, with the stack carried in and out |
| `Brackets.CloseExpression` | cpp/misc/cpplint.py:2075-2116 | over many lines: the place just behind the grammatical partner, or failure iff there is none, with the line on which the search ended |
| `Brackets.ReverseCloseExpression` | cpp/misc/cpplint.py:2196-2231 | over many lines: the place of the grammatical partner, or failure iff there is none, with the line on which the search ended |
| `Brackets.PartnersUnique` | cpp/misc/cpplint.py:2075-2231 | a bracket has at most one partner, so reversing a successful close returns to its opener |

## Left out

- EdgesBuilders.EdgesBuilder.AddEdge: the validation levels and the saved flag are not modelled; every edge is accepted, as with no validation.
- EdgesBuilders.EdgesBuilder.Dump: says nothing about files left over from an earlier dump; edge properties are not written.
- ChunkReaders.RunStaysSynced: bare seeks past the end are excluded, because there the code answers from a stale count; ChunkReaders.RunTracks covers them.
- EdgeIters.AdjListArrowChunkReader.GetChunk: requires the sought row to lie in the current chunk; otherwise the source slices a table at a negative row.
- Types.ParseInt64: for an empty or blank text, as of an absent entry, the source leaves the number uninitialised; the model gives 0.
- EdgeIters.EdgeIter.FirstAligned: only the ordered list of the matching direction; the linear searches of the other three list types are not modelled.
- EdgeIters.EdgeIter.Begin: a collection over all vertex chunks; collections over a range of them are not modelled.
- EdgeIters.EdgeIter.Current: the edge only; the property readers an iterator carries along are not modelled.
- ComponentsPush.ConnectedComponents: walks rows with the cursor contract of `first_*`/`next_*` on a sorted edge list; StoredExamples.PushComponents runs the same algorithm on the iterator, with its throws. BfsPush.BfsDistances and BfsPull.BfsDistances likewise, with StoredExamples.PushDistances and StoredExamples.PullDistances.
- StoredExamples.PushComponents: the begin iterators, which are never stepped, are kept as the three fields a search reads.
- PageRank.ComputePageRank: ranks are real numbers; rounding of doubles is not modelled.
- LabelFilter.GetValidIndices: column pages, nulls and the Parquet reader are not modelled; the row groups hold `row_num` rows as the metadata says; the tested label ids are distinct.
- InfoYaml.LoadVertex: a YAML mapping where a sequence is expected is read as empty; writing a tree as text and parsing it back is the YAML library's.
- GraphYaml.ConstructGraphInfo: paths and URIs of the file system are plain keys.
- Paths.PathsInjectiveIff: within one edge info; paths of different infos are not compared.
- PropertyGroups.IsValidated: an unset data type is None; `HasPropertyGroup`, which dereferences null groups, is not modelled.
- Imports.ImportEdges: one source table and no edge property values (the tool casts every property with index 0). The tool ignores the status of AddEdge, so at stricter validation levels a refused edge is dropped silently; the model writes with no validation.
- Imports.AddRows: the ignored status of AddEdge, as above.
- Disks.Save: starts where the list has no files yet; files left over from an earlier dump are not modelled.
- Imports.Validate: the properties of one vertex type in group order; the checks on edge sections repeat the same pattern.
- Brackets.CloseExpression: text without angle brackets, whose handling is heuristic; semicolons are included.
- Integer widths: vertex ids, offsets and counts are unbounded; only the int64 texts of the metadata are clipped.
- AdjListOffsetChunkInfoReader and VertexPropertyChunkInfoReader: counters over one index with a single bound check, which would only add easy members.
- The expression builder, the chunk writers' option checks, file systems, S3, the Spark and Java libraries, logging and console output.
- Writing the algorithms' results back as new property groups at the end of the examples.
