# Weisfeiler–Leman refinement and graph generators, in Dafny

This project models the pure core of the `urf-wl2-obstruction` scripts.

- **Reading graphs.** It models how edge lists are read and normalised, how node labels become indices, and how the sorted, symmetric adjacency lists are built. It also models the binary-search adjacency test `has_edge`.
- **Exact refinement.** It models the exact 2-dimensional and 3-dimensional Weisfeiler–Leman colour refinement over every ordered pair or triple:
  - initial equality/adjacency patterns;
  - per-round signatures made of the old colour and sorted multisets;
  - a first-seen palette that numbers the signatures densely;
  - the colour histogram.
- **"Sampled" driver.** It models the driver's lenient edge reader and its 1-dimensional vertex refinement. Triples are drawn where `random.sample` / `random.choice` are called, with the draws as abstract parameters; their signatures are built, and the counter is collapsed.
- **Instance generators.** It models three generators:
  - the `T_n` generator: edge normalisation, the base graph `H` and repeated random 2-lifts;
  - the Cai–Fürer–Immerman gadget construction over a 3-regular base graph;
  - the fixed twisted double lift of the Petersen graph.

Every operation is a pure function over immutable values. `has_edge` is also given as an imperative loop. Python exceptions and `SystemExit`s become `Result` errors. Random bits and draws are parameters.

Modules, one per source file plus shared pieces:

- `Wrappers` (wrappers.dfy): `Option` / `Result`
- `Text` (text.dfy): `str.strip()`, `str.split()`, `int()` on a token
- `Sorting` (sorting.dfy): `list.sort()` / `sorted` with an explicit total order; `sorted(set(...))`
- `GraphIO` (graphio.dfy): `scripts/graphio.py`
- `Palette` (palette.dfy): the first-seen `palette` / `color_ids` / `name2id` dictionaries
- `TupleSpace` (tuples.dfy): the nested `range(n)` loops, in lexicographic order
- `Colours` (colour.dfy): colours (pattern tuples or palette ids), their order, `Counter`
- `Refinement` (refinement.dfy): "one colouring refines another"
- `Wl2Full`, `Wl3Full` (wl2.dfy, wl3.dfy): `scripts/wl2_full.py`, `scripts/wl3_full.py`
- `Sampling`, `Wl3Sampled` (sampling.dfy, wl3_sampled.dfy): `scripts/wl3_sampled.py`
- `GenTn` (gen_tn.dfy): `scripts/gen_Tn.py`
- `Cfi` (cfi.dfy): `scripts/cfi.py`
- `CfiPetersen` (cfi_petersen.dfy): `scripts/cfi_petersen.py`

## Model

| member | source | states |
|---|---|---|
| GraphIO.Normalise | scripts/graphio.py:16-17 | the pair is put smaller end first, and its two ends are kept |
| GraphIO.ParseLine | scripts/graphio.py:9-18 | a blank or `#` line yields nothing; an accepted edge always has `u < v` |
| GraphIO.ParseLineMeaning | scripts/graphio.py:9-18 | a line whose first two fields are integers `u`, `v` yields `(min, max)`, or nothing when `u == v`; every other non-blank, non-comment line is an error |
| GraphIO.FirstBad | scripts/graphio.py:8-13 | the index of the first line that raises: every earlier line parses, and that one fails |
| GraphIO.ParseEdges | scripts/graphio.py:5-18 | reading fails exactly when some line fails, with the first failing line's error; otherwise every edge has `u < v` and there is at most one edge per line |
| GraphIO.ParseEdgesHas | scripts/graphio.py:8-18 | on success the edges read are exactly those of the accepted lines: blank lines, `#` lines and self-loops give none, and every other line gives its normalised edge |
| GraphIO.ParseEdgesAppend | scripts/graphio.py:8-18 | reading two files back to back succeeds iff both read, and gives the first file's edges followed by the second's; with `ParseEdgesHas` this fixes the edge list in line order |
| GraphIO.NodesOf | scripts/graphio.py:19-20 | the node list is strictly increasing and is exactly the set of endpoints |
| GraphIO.ReadEdgelist | scripts/graphio.py:4-21 | `read_edgelist` over a sequence of lines: it fails iff parsing fails; the edges are exactly those of the accepted lines, in the order `ParseEdges` reads them; the node list is derived from them |
| GraphIO.ParseFormattedLine | scripts/graphio.py:9-18 | a line `"u v"` written with two distinct integers reads back as the normalised edge (print/parse round trip) |
| GraphIO.ParseFormattedEdges | scripts/graphio.py:8-18 | a whole edge list printed one edge per line reads back as its normalised edges, in order |
| GraphIO.IndexOf | scripts/graphio.py:24 | `idx` has exactly the nodes as keys, and maps each one to a position holding it |
| GraphIO.IndexOfInverse | scripts/graphio.py:24 | for a duplicate-free node list, `idx[nodes[i]] == i` |
| GraphIO.Fill | scripts/graphio.py:27-30 | the append loop succeeds iff both ends of every edge are known (the `KeyError` case) and keeps one list per node |
| GraphIO.FillHas | scripts/graphio.py:27-30 | after the loop, `j` is in list `i` iff it was there before or some edge joins `i` and `j` |
| GraphIO.FillEnds | scripts/graphio.py:27-30 | after the loop, list `i` holds, with multiplicity, what it held before plus one neighbour per edge end at `i`: a repeated edge adds its neighbour once per copy, and a self-loop adds its vertex twice |
| GraphIO.BuildAdj | scripts/graphio.py:23-33 | one list per node, each sorted, with indices below the node count. `j` is in `adj[i]` iff some edge joins nodes `i` and `j`. As a multiset, `adj[i]` is exactly the neighbours added by the edge ends at node `i`, so `len(adj[i])` is the number of those ends. Fails iff an endpoint is not a node |
| GraphIO.AdjSymmetric | scripts/graphio.py:27-30 | `j` is in `adj[i]` iff `i` is in `adj[j]` |
| GraphIO.ReadThenBuild | scripts/graphio.py:19-33 | building the adjacency from what `read_edgelist` returns never fails on an unknown node |
| GraphIO.SearchFinds | scripts/graphio.py:37-47 | on a sorted list, the binary search between `lo` and `hi` returns 1 iff `j` occurs in that range |
| GraphIO.HasEdgeMeansNeighbour | scripts/graphio.py:35-47 | on a sorted `adj[i]`, `has_edge` is 1 iff `j` is in `adj[i]`, and 0 iff it is not |
| GraphIO.HasEdgeLoop | scripts/graphio.py:35-47 | the `while` loop returns what the recursive search returns, and on a sorted `adj[i]` it returns 1 iff `j` is in `adj[i]` |
| GraphIO.LoadAdj | scripts/wl2_full.py:39-40 | reading then building fails iff reading fails; on success it gives one sorted list per node, symmetric |
| Text.TrimLeftMeaning | scripts/graphio.py:9 | the left-stripped text is a suffix of the line, and everything cut off is whitespace |
| Text.TrimRightMeaning | scripts/graphio.py:9 | the right-stripped text is a prefix of the line, and everything cut off is whitespace |
| Text.StripMeaning | scripts/graphio.py:9-10 | `strip()` is empty iff the line is all whitespace; otherwise it starts and ends with non-space characters |
| Text.WordMeaning | scripts/graphio.py:12 | a field is the longest run of non-space characters at the start of the text |
| Text.SplitFields | scripts/graphio.py:12 | every field produced by `split()` is non-empty and has no whitespace |
| Text.SplitKeepsText | scripts/graphio.py:12 | the fields joined together are the line without its whitespace, and there are none iff the line is all whitespace |
| Text.ParseShowRoundTrip | scripts/graphio.py:13 | `int()` of a printed integer gives that integer back |
| Text.SplitTwoFields | scripts/graphio.py:12 | `split()` of `"a b"` is `[a, b]` for two fields |
| Sorting.Sort | scripts/graphio.py:31-32 | sorting yields a permutation of its input that is in order |
| Sorting.SortCanonical | scripts/wl2_full.py:20-21 | two lists sort to the same list iff they are equal as multisets |
| Sorting.SortDedup | scripts/gen_Tn.py:18 | `sorted(set(xs))` is strictly increasing and holds exactly the elements of `xs` |
| Sorting.SortDedupCanonical | scripts/gen_Tn.py:18 | two lists give the same `sorted(set(...))` iff they have the same elements, and applying it twice changes nothing |
| Palette.Assign | scripts/wl2_full.py:23-27 | a known signature keeps its id; a new one gets the next id `nxt`, and the palette stays dense |
| Palette.Build | scripts/wl2_full.py:14-28 | running the palette over a list gives ids `0 .. k-1` for exactly the listed signatures |
| Palette.BuildSize | scripts/wl2_full.py:14-28 | the final `nxt` is the number of distinct signatures |
| Palette.BuildNumbersFirstSeen | scripts/wl2_full.py:23-27 | id `i` belongs to the `i`-th distinct signature in order of first appearance |
| Palette.BuildInjective | scripts/wl2_full.py:23-27 | different signatures never share an id |
| Palette.BuildFirstSeenPair | scripts/wl2_full.py:23-27 | one signature's id is smaller than another's iff it first appears earlier |
| Palette.BuildPrefixStable | scripts/cfi.py:41-46 | the id a tag has when `nid` is called is the id it keeps to the end |
| Palette.Recolour | scripts/wl2_full.py:17-28 | the new colouring covers exactly the domain, and two keys share a colour iff their signatures are equal |
| Palette.RecolourDense | scripts/wl2_full.py:14-28 | the colours used are exactly `0 .. nxt-1` |
| Palette.RecolourFirstSeenAt | scripts/wl2_full.py:17-28 | a key gets a smaller colour than another iff its signature first appears earlier in loop order |
| TupleSpace.Tuples | scripts/wl2_full.py:17-18 | the nested loops visit `n^k` tuples |
| TupleSpace.TuplesHas | scripts/wl3_full.py:26-28 | the loops visit exactly the length-`k` tuples over `[0, n)` |
| TupleSpace.TuplesAscending | scripts/wl3_full.py:26-28 | the loops visit tuples in strictly increasing lexicographic order, so each tuple is visited once |
| TupleSpace.PairHas | scripts/wl2_full.py:17-18 | the pair loops visit exactly the pairs over `[0, n)` |
| TupleSpace.TripleHas | scripts/wl3_full.py:26-28 | the triple loops visit exactly the triples over `[0, n)` |
| Colours.ColourLeqTotal | scripts/wl2_full.py:21 | the order `sort` uses on colours is a total order |
| Colours.PairLeqTotal | scripts/wl2_full.py:21 | the lexicographic order on `(colour, colour)` pairs used by `agg.sort()` is total |
| Colours.Histogram | scripts/wl2_full.py:31 | `Counter(colors.values())`: for every colour, the count is the number of keys carrying it (`Occurrences`); the counts add up to the number of keys |
| Refinement.RefinesClassCount | scripts/wl2_full.py:19-22 | a colouring that refines another has at least as many colour classes |
| Refinement.RefinesTransitive | scripts/wl2_full.py:13-29 | refinement composes over rounds |
| Wl2Full.InitColourMeaning | scripts/wl2_full.py:11 | the initial colour of `(i, j)` is `(1 if i == j else 0, has_edge)`, i.e. equality and adjacency bits |
| Wl2Full.InitColours | scripts/wl2_full.py:11 | the initial colouring is defined on exactly `[0, n)^2` |
| Wl2Full.SigEqual | scripts/wl2_full.py:19-22 | two signatures are equal iff the old colours agree and the `(c(i,w), c(w,j))` lists agree as multisets |
| Wl2Full.Sigs | scripts/wl2_full.py:19-22 | one signature per pair of `[0, n)^2` |
| Wl2Full.Refine | scripts/wl2_full.py:14-29 | one round keeps the domain `[0, n)^2`; two pairs share a new colour iff their signatures are equal, and equal new colours imply equal old ones |
| Wl2Full.RefineDense | scripts/wl2_full.py:14-28 | the new ids are exactly `0 .. nxt-1` |
| Wl2Full.RefineFirstSeen | scripts/wl2_full.py:17-28 | ids are assigned in first-seen order over lexicographic `(i, j)` |
| Wl2Full.RoundColours | scripts/wl2_full.py:13-29 | after every round the colouring is defined on exactly `[0, n)^2` |
| Wl2Full.ColoursRefine | scripts/wl2_full.py:13-29 | a later round refines an earlier one, and the class count never drops |
| Wl2Full.Wl2FullFromAdj | scripts/wl2_full.py:6-31 | the result is the histogram of the colouring after `rounds` rounds (the initial one when `rounds <= 0`) over all `n*n` pairs |
| Wl2Full.Wl2Main | scripts/wl2_full.py:33-41 | fails iff reading fails; otherwise it is `wl2_full_from_adj` of the loaded adjacency, with `n*n` pairs counted |
| Wl3Full.InitColourMeaning | scripts/wl3_full.py:6-13 | the six bits are `a==b`, `a==c`, `b==c` and adjacency of `(a,b)`, `(a,c)`, `(b,c)` |
| Wl3Full.InitColours | scripts/wl3_full.py:19 | the initial colouring is defined on exactly `[0, n)^3` |
| Wl3Full.SigEqual | scripts/wl3_full.py:29-34 | two signatures are equal iff the old colours agree and each `M_p` agrees as a multiset, whatever the iteration order of `w` |
| Wl3Full.Refine | scripts/wl3_full.py:26-42 | one round keeps the domain `[0, n)^3`; triples share a new colour iff their signatures are equal, and equal new colours imply equal old ones |
| Wl3Full.RefineDense | scripts/wl3_full.py:35-39 | the new ids are exactly `0 .. nxt-1` |
| Wl3Full.RefineFirstSeen | scripts/wl3_full.py:26-40 | ids are assigned in first-seen order over lexicographic `(a, b, c)` |
| Wl3Full.RoundColours | scripts/wl3_full.py:21-42 | after every round the colouring is defined on exactly `[0, n)^3` |
| Wl3Full.ColoursRefine | scripts/wl3_full.py:21-42 | a later round refines an earlier one, and the class count never drops |
| Wl3Full.Wl3Histogram | scripts/wl3_full.py:15-44 | the result is the histogram of the colouring after `rounds` rounds (the initial one when `rounds <= 0`) over all `n^3` triples |
| Wl3Full.Wl3Main | scripts/wl3_full.py:46-58 | a read failure is reported as such; `n > 18` is rejected with `n` before refining; otherwise it is `wl3_full` of the loaded adjacency, with `n <= 18` and `n^3` triples counted |
| Wl3Sampled.ClassifyMeaning | scripts/wl3_sampled.py:13-26 | a line is accepted as `(u, v)` iff its first two fields are integers `u` and `v` |
| Wl3Sampled.AddNeighbour | scripts/wl3_sampled.py:27 | `adj[u].add(v)` adds exactly the link `u -> v` and keeps each neighbour set duplicate-free |
| Wl3Sampled.Collect | scripts/wl3_sampled.py:12-28 | skipped plus accepted lines make all lines; `w` and `x` are linked iff some accepted line names them, in either order |
| Wl3Sampled.ReadEdgelist | scripts/wl3_sampled.py:8-30 | the reader's counts and links, over a sequence of lines |
| Wl3Sampled.ReadSymmetric | scripts/wl3_sampled.py:27-28 | the adjacency read is symmetric, and every neighbour is itself a key |
| Wl3Sampled.ReadEmpty | scripts/wl3_sampled.py:8-30 | the adjacency is empty iff no line was accepted |
| Wl3Sampled.SortedKeys | scripts/wl3_sampled.py:36 | `sorted(adj.keys())` is strictly increasing and holds exactly the keys |
| Wl3Sampled.ColoursOfPermutation | scripts/wl3_sampled.py:53 | the colours of a neighbour list depend only on its multiset, not on the set iteration order |
| Wl3Sampled.NeighbourOrderFree | scripts/wl3_sampled.py:53 | the sorted neighbour colours are the same for any listing of the same neighbour set |
| Wl3Sampled.RefineVertices | scripts/wl3_sampled.py:47-60 | one round colours every vertex; two vertices share a new colour iff their signatures agree, and equal new colours imply equal old ones |
| Wl3Sampled.RefineVerticesDense | scripts/wl3_sampled.py:49-57 | the new colours are exactly `0 .. next_id-1` |
| Wl3Sampled.RefineVerticesFirstSeen | scripts/wl3_sampled.py:52-58 | ids are assigned in first-seen order over the sorted nodes |
| Wl3Sampled.VertexColours | scripts/wl3_sampled.py:45-60 | after the rounds every vertex has a colour, and with no rounds every colour is 0 |
| Wl3Sampled.VertexColoursRefine | scripts/wl3_sampled.py:47-60 | more rounds refine fewer, and the class count never drops |
| Wl3Sampled.TripleDrawn | scripts/wl3_sampled.py:63-69 | the three drawn vertices are vertices, pairwise distinct when there are at least three |
| Wl3Sampled.DrawSamples | scripts/wl3_sampled.py:62-79 | the sampling loop produces exactly `samples` signatures |
| Wl3Sampled.Wl3Sampled | scripts/wl3_sampled.py:33-81 | an empty adjacency gives `[]`; otherwise there are exactly `max(samples, 0)` entries |
| Wl3Sampled.Wl3SampledAt | scripts/wl3_sampled.py:62-79 | entry `k` is the signature of the `k`-th drawn triple under the final vertex colours |
| Wl3Sampled.Collapse | scripts/wl3_sampled.py:101-105 | the collapsed counter has the same keys as the raw counter, each with count 1 |
| Wl3Sampled.CollapseOrderFree | scripts/wl3_sampled.py:101-105 | the collapsed counter depends only on the multiset of samples |
| Wl3Sampled.Wl3SampledMain | scripts/wl3_sampled.py:98-105 | the counter is the set of signatures that sampling produces on the graph read from the lines, each counted once. The graph read is symmetric. No accepted line gives an empty counter, and a non-empty graph with positive `samples` gives a non-empty one |
| Sampling.SampleAt | scripts/wl3_sampled.py:65 | `sample(nodes, 3)` at fixed positions gives three vertices, pairwise distinct for a duplicate-free list |
| Sampling.SampleThree | scripts/wl3_sampled.py:64-69 | any raw draws give vertices; with at least three vertices they are pairwise distinct |
| Sampling.SampleThreeAt | scripts/wl3_sampled.py:64-65 | draws already below the candidate counts pick exactly those positions |
| Sampling.SampleThreeReaches | scripts/wl3_sampled.py:64-69 | every admissible triple can be drawn: any three distinct vertices, or any three at all when fewer than three exist |
| GenTn.NormalizeEdges | scripts/gen_Tn.py:11-19 | raises iff some edge is a self-loop; otherwise the result is strictly sorted with `a < b` in each pair, and holds exactly the input edges in either orientation |
| GenTn.NormalisedFixed | scripts/gen_Tn.py:16-19 | an already normalised list is returned unchanged |
| GenTn.NormalizeIdempotent | scripts/gen_Tn.py:11-19 | normalising twice is normalising once |
| GenTn.NormalizeCanonical | scripts/gen_Tn.py:18 | two lists normalise alike iff they have the same undirected edges |
| GenTn.BaseGraphH | scripts/gen_Tn.py:21-30 | `H` has 4 vertices and the 5 normalised edges of a 4-cycle with one chord |
| GenTn.LiftEdgeMeaning | scripts/gen_Tn.py:42-48 | lifted copy `a` joins `2u+a` to `2v+a` (sign 0) or `2v+1-a` (sign 1), is oriented, and halves back to `(u, v)` |
| GenTn.LiftPairsFacts | scripts/gen_Tn.py:40-48 | every lifted edge is oriented and projects onto its base edge, and no lifted edge appears twice |
| GenTn.LiftPairsHas | scripts/gen_Tn.py:40-48 | the lifted edges are exactly the copies of the base edges under their sign bits |
| GenTn.Lift2 | scripts/gen_Tn.py:32-50 | fails iff the base list has a self-loop; otherwise `2n` vertices and a normalised list of exactly twice as many edges |
| GenTn.Lift2Edges | scripts/gen_Tn.py:39-50 | an edge is in the lift iff it is copy `a` of normalised base edge `k` under sign bit `k` |
| GenTn.Lift2Range | scripts/gen_Tn.py:36-50 | lifted endpoints lie in `[0, 2n)` when base endpoints lie in `[0, n)` |
| GenTn.LiftNormalised | scripts/gen_Tn.py:32-50 | lifting an already normalised list cannot fail and doubles both counts |
| GenTn.Lifts | scripts/gen_Tn.py:61-69 | after `k` lifts there are `4*2^k` vertices and `5*2^k` edges; step `j` records `i = j+1`, seed `seed+j+1`, and its `n` and `m` |
| GenTn.LiftsUseStepSeed | scripts/gen_Tn.py:61-63 | with no lift the graph is `H`; lift `k` is `lift_2` of the graph after lift `k-1`, with the sign bits of seed `seed+k`, and it succeeds |
| GenTn.GenerateTn | scripts/gen_Tn.py:52-71 | `generate_Tn` returns `4*2^t` vertices and `5*2^t` normalised edges, and the metadata records `seed`, `t` and one step per lift. When `t <= 0` the graph is `H` itself. Otherwise it is `lift_2` of the graph after `t-1` lifts, with the sign bits of seed `seed+t` |
| Cfi.EvenMasksExact | scripts/cfi.py:6 | `EVEN_MASKS_DEG3` is exactly the set of 3-bit masks with an even number of set bits |
| Cfi.FirstIrregular | scripts/cfi.py:17-19 | the first vertex whose degree is not 3: all earlier ones have degree 3 |
| Cfi.NeighHas | scripts/cfi.py:21-27 | `neigh[u]` holds exactly the labels of `u`'s neighbours |
| Cfi.CanonicalEdges | scripts/cfi.py:30 | `E` is strictly sorted, oriented, and holds exactly the base edges |
| Cfi.TwistSmallest | scripts/cfi.py:33-35 | the twist set has `parity % 2` elements: empty for even parity, the smallest base edge `E[0]` for odd parity |
| Cfi.Added | scripts/cfi.py:50-55 | `add` never records a self-loop, stores `(min, max)`, and records exactly the calls with distinct ends |
| Cfi.Wired | scripts/cfi.py:48-108 | the final edge list is strictly sorted, and every edge joins two distinct named nodes |
| Cfi.CallWired | scripts/cfi.py:50-108 | every `add` call with distinct ends leaves its edge in the final list |
| Cfi.WiredFromCall | scripts/cfi.py:50-108 | every edge in the final list comes from some `add` call |
| Cfi.Assemble | scripts/cfi.py:38-116 | the construction over the incidence lists: `n` is the number of distinct tags named; the twist count is `parity % 2`; the edges are strictly sorted and lie between named nodes |
| Cfi.GadgetWired | scripts/cfi.py:78-82 | each gadget node `G(u, mask)` is joined to the connector `X(u, e_k, bit_k(mask))` for `k = 0, 1, 2` |
| Cfi.GadgetOnlyWired | scripts/cfi.py:64-105 | every edge at a gadget node `G(u, mask)` goes to one of those three connectors, and to nothing else |
| Cfi.ConnectorWired | scripts/cfi.py:89-105 | for each base edge the connectors are matched `0–0 / 1–1`, or `0–1 / 1–0` when the edge is twisted |
| Cfi.AssembleHasOnly | scripts/cfi.py:64-108 | every output edge is the edge of a gadget spoke or a connector match |
| Cfi.AssembleHasAll | scripts/cfi.py:64-108 | every gadget spoke and connector match with distinct ends is an output edge |
| Cfi.ConnectorEndsKnown | scripts/cfi.py:89-98 | `neigh[a].index(b)` and `neigh[b].index(a)` cannot raise, and the four connector tags were already named in the vertex loop |
| Cfi.CfiFromGraph | scripts/cfi.py:14-108 | the construction fails with `UnknownEndpoint` iff building the adjacency fails. It fails with `NotCubic` iff some degree is not 3, reporting the first such vertex and its degree. It fails with `NoEdgeToTwist` iff the parity is odd and there is no edge. Otherwise it is the assembled gadget graph |
| Cfi.BuildCfi | scripts/cfi.py:11-118 | `build_cfi` over lines fails to read exactly when reading fails. It never fails on an unknown endpoint. `E[0]` fails exactly when the file has no edge and the parity is odd. Otherwise it is the construction over the graph read |
| Cfi.NotCubicByEnds | scripts/cfi.py:14-19 | the base graph is rejected as not cubic iff some vertex is the end of a number of edges other than 3; a self-loop counts twice and a repeated edge once per copy |
| Cfi.ReadGraphTwist | scripts/cfi.py:29-35 | on a graph whose vertices are the endpoints of its edges, `E[0]` fails iff there is no edge and the parity is odd |
| Cfi.EmptyGraph | scripts/cfi.py:30-35 | `E` is empty iff the file has no edge, and then there is no node either |
| Cfi.CfiVertexCount | scripts/cfi.py:116 | `n = next_id` is the number of distinct vertex-gadget tags, at most 10 per base vertex; the edge loop names no new node |
| CfiPetersen.PetersenEdgesBase | scripts/cfi_petersen.py:7-12 | the Petersen graph has 15 edges, all on vertices `0 .. 9`, none a loop |
| CfiPetersen.PetersenSimple | scripts/cfi_petersen.py:7-12 | no Petersen edge is listed twice, in either orientation |
| CfiPetersen.ModeTwoLeavesRange | scripts/cfi_petersen.py:19-28 | with `mode = 2` the script prints `14 20`, an id outside `[0, 20)` |
| CfiPetersen.Lift | scripts/cfi_petersen.py:14-28 | the mode is checked against `{0, 1}` and refused otherwise; an accepted mode gives 60 printed pairs, each line followed at once by its reverse |
| CfiPetersen.PartnerBit | scripts/cfi_petersen.py:26 | for modes 0 and 1, `b == a` unless the mode is 1 and `u+v` is even, when `b == 1-a`: a bijection on `{0, 1}` |
| CfiPetersen.LiftMatching | scripts/cfi_petersen.py:24-28 | each base edge lifts to a perfect matching between the fibres `{2u, 2u+1}` and `{2v, 2v+1}`, printed both ways |
| CfiPetersen.LiftOnlyMatching | scripts/cfi_petersen.py:24-28 | every printed pair is part of such a matching |
| CfiPetersen.LiftSymmetric | scripts/cfi_petersen.py:27-28 | for every printed `(x, y)`, `(y, x)` is printed too |
| CfiPetersen.LiftPaired | scripts/cfi_petersen.py:27-28 | for any mode, each printed line is followed immediately by its reverse |
| CfiPetersen.LiftInRange | scripts/cfi_petersen.py:24-28 | for modes 0 and 1 every printed id lies in `[0, 20)`, and each pair joins two different fibres |
| CfiPetersen.ModeZeroLayered | scripts/cfi_petersen.py:26 | with `mode = 0` every pair stays within one layer (`b == a`) |
| CfiPetersen.ModeOneTwists | scripts/cfi_petersen.py:24-26 | mode 1 twists one edge of the outer 5-cycle and four edges in all; mode 0 twists none |

## Left out

- File reading and writing, `print`, `sys.argv` and `argparse` are not modelled. Every reader takes its lines as a sequence of strings. Every writer returns its values.
- The usage checks and exit codes of each `main` are not modelled.
- `write_edgelist` and its SHA-256 digest, and the JSON metadata files of `gen_Tn.py`, are not modelled.
- The `output` block that `main` adds to the `T_n` metadata is not modelled.
- `random.Random` itself is not modelled. Its output is a parameter:
  - the sign bits of `lift_2` are a function from edge position to bit, one function per step seed;
  - the draws of `wl3_sampled` are abstract position choices. The model maps them to positions by its own rule: a draw reduced modulo the number of candidates left. CPython's `choice` and `sample` work differently, by rejection sampling and, for `sample`, by swapping the last pool entry into the gap or by re-drawing until it hits an unselected index.
- Sampling.SampleThree: Python's exact mapping from generator state to positions is not reproduced. The model only claims that some draws give each admissible triple and that every draw gives an admissible one.
- Wl3Sampled.Wl3Sampled: it returns the signature tuples, not `hash(sig)`. Python's tuple hash is not modelled. The collapsed counter is therefore keyed by signatures, and two signatures whose hashes collide stay apart in the model.
- Wl3Sampled.ReadEdgelist: the skipped-line count is returned but not printed.
- The `depth` argument of `wl3_sampled` is never used by the code, so it is not a parameter.
- Wl3Sampled.ReadEdgelist: the adjacency is `defaultdict(set)`. It is modelled as a map to duplicate-free lists, because the iteration order of a set is unspecified. The results that depend on it are stated for every listing order (`NeighbourOrderFree`).
- Text.ParseInt: it accepts an optional sign and ASCII digits with single underscores. Python's `int()` also accepts non-ASCII Unicode decimal digits, which are not modelled.
- Text.ParseInt: it accepts digit runs of any length. Since Python 3.11, and in the 3.7–3.10 security releases, `int()` raises `ValueError` on a decimal string of more than 4300 digits by default. The limit can be changed with `sys.set_int_max_str_digits`. So a line with a 5000-digit field is an edge in the model but makes `read_edgelist` raise. `Text.ParseShowRoundTrip` likewise holds in Python only below that limit. The reader of `wl3_sampled.py` catches that `ValueError` and counts the line as skipped. So `Wl3Sampled.ReadEdgelist` accepts as an edge a line that Python skips.
- GraphIO.ReadEdgelist: a line with fewer than two fields is an error value. This stands for the `ValueError` from `a, b, *_ = line.split()`.
- `verify_triplet.py`, `verify_registry.py` and `enumerate_balls_d3_r2.py` are not part of this model. They do filesystem checks, hashing and JSON encoding.
- Cfi.ConnectorWired: it requires the base edge not to be a loop. Edges reach the construction through `read_edgelist`, which drops loops, so every edge in `E` has two distinct ends.
- Cfi.CfiFromGraph: `build_cfi` computes the positions `ia` and `ib` and never uses them. The model does not compute them. `ConnectorEndsKnown` proves that `index` cannot raise there.
- Refinement cost and performance are not modelled.

## Findings

| source | as written | input that shows it | evidently intended | confidence | as-written member | corrected member |
|---|---|---|---|---|---|---|
| scripts/cfi_petersen.py:19-26 | `mode = int(sys.argv[1])` is never checked, and `b = a ^ mode` on an edge with `u+v` even can be any integer | `mode = 2`: base edge `(7, 9)` prints the pair `14 20`, and vertex 20 is outside the twenty lifted vertices `0 .. 19` | only modes 0 and 1 are valid, as the usage line `{0\|1}` says, and every id lies in `[0, 20)` | not executed | CfiPetersen.ModeTwoLeavesRange | CfiPetersen.LiftInRange |
