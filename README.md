# G-vector sets of SIRIUS, and its timers

This project models, in Dafny, the part of SIRIUS that builds and distributes the set of
reciprocal-lattice vectors (G-vectors) inside a cutoff sphere, together with the wall-clock
timers of the code.

- **The G-vector set** (`class Gvec` in `src/SDDK/gvec.hpp`).
  - `find_z_columns` scans the FFT box and groups the vectors inside the cutoff into z-columns: the list of z for each (x, y). For a set reduced by inversion symmetry it keeps one of each mirror pair (x, y) / (-x, -y). The columns of a base set come first; otherwise the (0, 0) column goes first and the rest is sorted by decreasing size.
  - `distribute_z_columns` hands the columns to the MPI ranks. A base set's columns keep their ranks. Every further column goes to the lightest rank among those not yet served in the current round.
  - `init` builds two tables. The forward table `gvec_full_index_` packs column and position into one 32-bit number. The reverse table `gvec_index_by_xy_` stores, per (x, y), the column's first index and its size and number packed into one entry.
  - `init` then runs its checks, numbers the shells by length for a bare set of G-vectors (the second pass of `find_gvec_shells`, which returns at once for a G+k set), and maps a base set's local vectors into the new distribution.
  - The accessors are modelled too: `num_gvec`, `count`, `offset`, `gvec_count`, `gvec_offset`, `zcol_count`, `zcol_offset`, `skip_g0`, `shell`, `gvec`, `index_by_gvec` and `index_g12_safe`.
- **`Gvec_partition`** lays the ranks out on a grid of FFT × orthogonal communicators and builds the rank map. It computes the "fat-slab" FFT distribution of columns and vectors, the column order `idx_zcol_`, the offsets of the columns inside each FFT rank's buffer, `idx_gvec_` and the slab counts.
- **`Gvec_shells`** redistributes the vectors so that every rank holds whole shells: shell `igsh` goes to rank `igsh % P`.
  - It covers the send and receive descriptors, the remapped vectors with their shells, and the local index `idx_gvec`.
  - `remap_forward` and `remap_backward` go through an all-to-all exchange.
- **The timers** (`src/timer.cpp`).
  - `Timer::start`, `stop` and `value` work over the two process-wide history tables.
  - `collect_timer_stats` computes the local statistics, broadcasts the global labels from rank 0 as sizes plus one character array, and reduces the statistics over all ranks.

How the model represents the source:

- The cutoff test is an abstract predicate `inside(x, y, z)`.
- The shell length of a vector is an abstract integer key.
- MPI collectives (alltoall, allreduce, allgather, broadcast) are pure functions of every rank's data. A rank's view is that function read at its own rank.
- Clock readings are parameters.
- Imperative code is written as methods with loops, proved against specification functions. The lemmas beside those functions prove what the source relies on: round trips, permutations, totals, and that its sanity checks cannot fire.

## Model

| member | source | states |
|---|---|---|
| ZColumns.FilterRangeMembers | src/SDDK/gvec.hpp:232-241 | the z scan keeps exactly the frequencies of the range that are inside the cutoff, in ascending order |
| ZColumns.ColumnMembers | src/SDDK/gvec.hpp:225-241 | a column holds exactly the in-box frequencies inside the cutoff; for the (0, 0) column of a reduced set only z >= 0; at most nz entries |
| ZColumns.ColumnOffsetRule | src/SDDK/gvec.hpp:916-918 | for a convex cutoff, every z of a column is found at its own position by the offset rule (z - z[0], wrapped by the column size) that index_by_gvec uses |
| ZColumns.ScanColumn | src/SDDK/gvec.hpp:225-241 | the z loop of add_new_column yields the column's z-list |
| ZColumns.AddNewColumnTo | src/SDDK/gvec.hpp:221-258 | add_new_column appends a non-empty unmarked column, marks it (and its in-box mirror when reduced) and adds its size to num_gvec_ |
| ZColumns.AddNewColumnInv | src/SDDK/gvec.hpp:243-257 | one add_new_column step keeps the columns distinct, mirror-free when reduced, with correct z-lists, marks and count |
| ZColumns.ScanAllInv | src/SDDK/gvec.hpp:219-273 | after any visiting order the recorded columns are well-formed, num_gvec_ is their total size, and every visited (x, y) with a non-empty column is marked |
| ZColumns.RecordedWellFormed | src/SDDK/gvec.hpp:219-273 | the whole scan (base columns first, then the box) satisfies the scan invariant |
| ZColumns.RecordedCovers | src/SDDK/gvec.hpp:243-273 | no in-box (x, y) with a non-empty column is missed; in a reduced set it or its mirror is kept |
| ZColumns.RecordedBasePrefix | src/SDDK/gvec.hpp:260-267 | the base set's columns are recorded first, in base order |
| ZColumns.ScanBaseColumns | src/SDDK/gvec.hpp:260-267 | the base loop performs the scan over the base (x, y) pairs |
| ZColumns.ScanRow | src/SDDK/gvec.hpp:270-272 | the inner box loop continues the scan over one row |
| ZColumns.ScanBox | src/SDDK/gvec.hpp:269-273 | the box loops continue the scan over every in-box (x, y), row by row |
| ZColumns.WellFormedPermutation | src/SDDK/gvec.hpp:275-289 | reordering the columns keeps them well-formed |
| ZColumns.SwapZeroColumnFirst | src/SDDK/gvec.hpp:275-283 | a permutation of the columns that puts the (0, 0) column first when there is one |
| ZColumns.SortTail | src/SDDK/gvec.hpp:285-289 | a permutation that leaves the first n columns in place and sorts the rest by decreasing size |
| ZColumns.OrderColumns | src/SDDK/gvec.hpp:275-289 | a permutation of the recorded columns: base columns in base order or the (0, 0) column first, the rest by decreasing size |
| ZColumns.FindZColumns | src/SDDK/gvec.hpp:214-290 | the columns are a permutation of those the scan records, num_gvec_ is their total size, and the ordering rules hold |
| Distribution.FirstMinIndexIsFirstMin | src/SDDK/gvec.hpp:324-326 | std::min_element picks a rank of least G-vector count, the first such in the pool |
| Distribution.StepChoice | src/SDDK/gvec.hpp:318-335 | the chosen rank is in the (refilled) pool, no pool rank is lighter, and it is the lowest-numbered rank among equally light ones |
| Distribution.StepWf | src/SDDK/gvec.hpp:318-335 | one greedy step picks a valid rank and keeps the state well-formed |
| Distribution.GreedyAccounts | src/SDDK/gvec.hpp:317-336 | after the greedy loop the buckets hold the seen columns plus the new ones, and each rank's count is the size of its columns |
| Distribution.DistributeAccounts | src/SDDK/gvec.hpp:292-343 | the buckets are a permutation of all columns; each count is its bucket's total size; the counts sum to the total size |
| Distribution.FinalAccounts | src/SDDK/gvec.hpp:345-353 | the G-vector counts sum to num_gvec_, so the "wrong number of G-vectors" check cannot fire |
| Distribution.BaseColumnsStay | src/SDDK/gvec.hpp:300-310 | every rank's bucket begins with its base-set columns, in base order |
| Distribution.FirstColumnToRankZero | src/SDDK/gvec.hpp:317-333 | without a base set the first column goes to rank 0, first |
| Distribution.GreedyAppends | src/SDDK/gvec.hpp:317-335 | the greedy loop only appends to the buckets |
| Distribution.StepRounds | src/SDDK/gvec.hpp:318-335 | one step keeps the round structure: the pool is the ascending list of ranks the round has not yet served |
| Distribution.DistributeRounds | src/SDDK/gvec.hpp:316-335 | each round serves distinct ranks and every finished round serves every rank once |
| Distribution.AssignBase | src/SDDK/gvec.hpp:300-310 | the base phase gives each rank its base columns with their counts |
| Distribution.AppendColumn | src/SDDK/gvec.hpp:330-334 | assigning a column appends it to the rank's bucket and adds one column and its size to the rank's counts |
| Distribution.GreedyIteration | src/SDDK/gvec.hpp:318-335 | one iteration of the loop is one step of the greedy specification |
| Distribution.AssignGreedy | src/SDDK/gvec.hpp:317-336 | the loop over the remaining columns yields the greedy specification's buckets and counts |
| Distribution.Concatenate | src/SDDK/gvec.hpp:340-344 | the new column list is the buckets laid end to end, rank by rank |
| Distribution.DistributeZColumns | src/SDDK/gvec.hpp:292-354 | the new column order, counts and offsets are those of the specification; the columns are a permutation of the old ones and the counts sum to num_gvec_ |
| GvecIndex.FullIndexRoundTrip | src/SDDK/gvec.hpp:198-211 | within 2^20 columns and 2^12 positions the forward entry (i << 12) + j decodes back to i and j |
| GvecIndex.PackSizeRoundTrip | src/SDDK/gvec.hpp:528-529 | read as an unsigned number, the entry (size << 20) + i decodes to size and i for every size below 2^12 |
| GvecIndex.PackSizeAsWrittenRoundTrip | src/SDDK/gvec.hpp:528-529 | the entry cast to int decodes back only for sizes below 2^11 |
| GvecIndex.PackSizeAsWrittenWraps | src/SDDK/gvec.hpp:528-529 | for size 2048 the cast entry is negative and >> 20 decodes it to -2048 |
| GvecIndex.FullIndexAt | src/SDDK/gvec.hpp:522-533 | the forward table holds (i << 12) + j at the column's first index plus j |
| GvecIndex.XYTableAt | src/SDDK/gvec.hpp:524-529 | the reverse table holds, at each column's (x, y), its first index and its packed size and number |
| GvecIndex.XYTableKeys | src/SDDK/gvec.hpp:519-529 | the reverse table has an entry exactly at the (x, y) of the columns |
| GvecIndex.FullIndexDecode | src/SDDK/gvec.hpp:198-211 | every forward entry decodes to a valid column and position |
| GvecIndex.GvecAt | src/SDDK/gvec.hpp:787-790 | gvec(ig) is the vector of the column that contains index ig, at the position ig minus the column start |
| GvecIndex.BuiltLookupSafe | src/SDDK/gvec.hpp:887-923 | on built tables every read of index_by_gvec is in range |
| GvecIndex.IndexRoundTrip | src/SDDK/gvec.hpp:537-544 | index_by_gvec(gvec(ig)) == ig for every ig, so init's round-trip check cannot fire |
| GvecIndex.IndexOfMember | src/SDDK/gvec.hpp:887-923 | for a vector of the set, index_by_gvec returns an index whose vector is that vector |
| GvecIndex.IndexOfAbsent | src/SDDK/gvec.hpp:893-897 | an (x, y) without a column, or a z < 0 on the (0, 0) column of a reduced set, gives -1 |
| GvecIndex.LookupColumnEntry | src/SDDK/gvec.hpp:887-923 | the j-th vector of column i is found at the column start plus j |
| GvecIndex.AsWrittenAgreesBelow2048 | src/SDDK/gvec.hpp:528-529 | while every column is shorter than 2^11 the signed entry gives the same lookup as the unsigned one |
| GvecIndex.AsWrittenRoundTripBelow2048 | src/SDDK/gvec.hpp:537-544 | with the signed entry as written, the round-trip check passes while all columns are shorter than 2^11 |
| GvecIndex.AsWrittenLookupFails | src/SDDK/gvec.hpp:528-529 | a 2048-vector column: the signed entry makes index_by_gvec return -2049 where 2047 is right |
| GvecIndex.BuildIndex | src/SDDK/gvec.hpp:521-536 | the loop builds exactly the forward and reverse tables of the columns, and its count is the total size (the count check cannot fire) |
| GvecIndex.AppendColumnEntries | src/SDDK/gvec.hpp:530-532 | the inner loop appends (i << 12) + j for every position j of the column |
| Shells.SortPairs | src/SDDK/gvec.hpp:422-431 | the (key, index) pairs, sorted: a permutation of the pairs, ascending |
| Shells.IdsOrder | src/SDDK/gvec.hpp:438-446 | in the sorted pairs, shell numbers never decrease and two pairs share a number exactly when their keys are equal |
| Shells.NumberSorted | src/SDDK/gvec.hpp:433-449 | the numbering loop gives every vector the number of its key's run and records each run's key |
| Shells.AssignShells | src/SDDK/gvec.hpp:422-452 | smaller key ⇔ smaller shell, equal key ⇔ same shell, each shell records its key in ascending order, every shell is used, and the number of shells is the number of distinct keys |
| Shells.NumShellsIsDistinctLengths | src/SDDK/gvec.hpp:433-449 | num_gvec_shells_ is the number of distinct lengths |
| GvecSet.NumGvec | src/SDDK/gvec.hpp:727-730 | num_gvec is the total size of the columns and is positive |
| GvecSet.ZcolOffset | src/SDDK/gvec.hpp:740-745 | zcol_offset(r) is the sum of the column counts of the ranks before r |
| GvecSet.ZcolCount | src/SDDK/gvec.hpp:733-738 | rank r's columns end where rank r + 1's begin |
| GvecSet.GvecOffset | src/SDDK/gvec.hpp:761-766 | gvec_offset(r) is the first index of rank r's first column |
| GvecSet.GvecCount | src/SDDK/gvec.hpp:747-752 | rank r's vectors are exactly those of its columns |
| GvecSet.Count | src/SDDK/gvec.hpp:755-758 | count() is this rank's share and lies within the set |
| GvecSet.SkipG0 | src/SDDK/gvec.hpp:775-778 | skip_g0 is 1 exactly on the rank that holds G = 0 |
| GvecSet.ZeroOnRankZero | src/SDDK/gvec.hpp:775-778 | G = 0 sits at index 0 on rank 0, and every other rank has a positive offset |
| GvecSet.GvecOf | src/SDDK/gvec.hpp:787-790 | gvec(ig) is a vector of the set, and index_by_gvec maps it back to ig |
| GvecSet.IndexOf | src/SDDK/gvec.hpp:887-923 | a vector of the set gets its index; no column, or a z < 0 on (0, 0) in a reduced set, gives -1 |
| GvecSet.Shell | src/SDDK/gvec.hpp:829-832 | on a bare set, shell(ig) is a valid shell number (its meaning is ShellsByKey, established by Init) |
| GvecSet.IndexG12Safe | src/SDDK/gvec.hpp:853-872 | success: the index of G1 - G2, or (conj) the index of G2 - G1 when G1 - G2 gives a negative index; failure ("wrong index of G-G' vector") exactly when neither index is valid |
| GvecSet.IndexG12Direct | src/SDDK/gvec.hpp:853-872 | when G1 - G2 is in the set, its own index is returned, not conjugated |
| GvecSet.IndexG12Conjugate | src/SDDK/gvec.hpp:853-872 | when the (x, y) of G1 - G2 has no column (or, in a reduced set, G1 - G2 is on (0, 0) with z < 0) and G2 - G1 is in the set, the lookup gives -1 and the index of G2 - G1 is returned, conjugated |
| GvecSet.IndexG12Reduced | src/SDDK/gvec.hpp:853-872 | in a reduced set, a nonzero G1 - G2 whose mirror is in the set is looked up through its mirror |
| GvecSet.LocalVectors | src/SDDK/gvec.hpp:557-562 | a rank's local vectors are gvec(offset() + igloc) in local order |
| GvecSet.KeysOf | src/SDDK/gvec.hpp:424-428 | the shell key of every vector, by global index |
| GvecSet.Init | src/SDDK/gvec.hpp:510-583 | init succeeds exactly when G = 0 is inside the cutoff. It then yields a consistent set: columns a permutation of those found, index tables and distribution built, the bare flag stored, shells numbered by key for a bare set and none (empty shell table, no shells) for a G+k set, base columns kept on their ranks and the base set mapped. Otherwise it fails with "first G-vector is not zero" |
| GvecSet.Assemble | src/SDDK/gvec.hpp:518-556 | the index tables, the count and round-trip checks, the first-vector check, and the shells of a bare set (none for a G+k set, as find_gvec_shells returns at once), with the same success condition as Init |
| GvecSet.IndexTables | src/SDDK/gvec.hpp:518-544 | the built tables, their count, and the round trip for every index |
| GvecSet.InitColumns | src/SDDK/gvec.hpp:514-516 | find_z_columns then distribute_z_columns: a well-formed permutation of the found columns, distributed, with the base columns kept on their ranks and (0, 0) first |
| GvecSet.FindColumns | src/SDDK/gvec.hpp:214-290 | the column finder over a base Gvec: well-formed, a permutation of the scan, base columns first |
| GvecSet.MapBase | src/SDDK/gvec.hpp:557-580 | the base mapping succeeds exactly when every base local vector is local here, giving its local index; otherwise "local G-vector index is not found" |
| GvecSet.MapBaseSet | src/SDDK/gvec.hpp:557-580 | under the base-set conditions the mapping is stored and maps every base local vector |
| GvecSet.BaseStaysLocal | src/SDDK/gvec.hpp:562-571 | every local vector of a base set is local on the same rank of the new set, so the mapping check cannot fire |
| GvecSet.FirstVectorZero | src/SDDK/gvec.hpp:546-550 | with the (0, 0) column first and starting at z = 0, full index 0 decodes to G = 0 |
| GvecSet.FirstVectorInside | src/SDDK/gvec.hpp:546-550 | if the first vector is G = 0 then G = 0 is inside the cutoff |
| GvecSet.AssembledConsistent | src/SDDK/gvec.hpp:518-556 | the assembled set is consistent and its shells follow the keys |
| GvecSet.KeptColumnsCover | src/SDDK/gvec.hpp:300-310 | each rank's columns begin with columns that cover its base-set columns |
| GvecSet.WellFormedIndexable | src/SDDK/gvec.hpp:521-544 | well-formed columns meet the index builder's conditions (distinct (x, y), offset rule) |
| Collectives.Alltoall | src/SDDK/gvec.hpp:1453-1454 | rank q receives, in rank order, the block each rank addressed to q |
| Collectives.ReceivedBlock | src/SDDK/gvec.hpp:1453-1454 | block r of what q receives is exactly block q of what r sent |
| Collectives.TransposeTwice | src/SDDK/gvec.hpp:1466-1467 | swapping send and receive counts twice gives the original counts |
| Collectives.AlltoallInverse | src/SDDK/gvec.hpp:1466-1467 | an alltoall with send and receive counts swapped undoes the first one |
| GvecShells.Owner | src/SDDK/gvec.hpp:1338-1338 | the block-cyclic owner of a shell is a valid rank |
| GvecShells.GvecLayout | src/SDDK/gvec.hpp:1338-1347 | a bare set's counts and offsets tile its shell list, one shell per vector |
| GvecShells.HistogramCounts | src/SDDK/gvec.hpp:1341-1347 | the send count for rank q is the number of local vectors whose shell q owns |
| GvecShells.HistogramSum | src/SDDK/gvec.hpp:1349-1352 | the send counts add up to count(), so that check cannot fire |
| GvecShells.CountSend | src/SDDK/gvec.hpp:1341-1347 | the first loop computes a2a_send.counts |
| GvecShells.CountRecv | src/SDDK/gvec.hpp:1354-1364 | the second loop computes a2a_recv.counts: how many of rank r's vectors this rank owns |
| GvecShells.RecvIsTransposed | src/SDDK/gvec.hpp:1354-1364 | what rank me receives from r is what r sends to me |
| GvecShells.RemappedTotal | src/SDDK/gvec.hpp:1366-1371 | the remapped sizes over all ranks add up to num_gvec, so that check cannot fire |
| GvecShells.FillRemapped | src/SDDK/gvec.hpp:1373-1390 | the remapped vectors and shells are those of the owned shells, in global order |
| GvecShells.FillRank | src/SDDK/gvec.hpp:1375-1389 | one pass over rank r's vectors, started at a2a_recv.offsets[r], extends the filled prefix: afterwards the buffers begin with the owned vectors and shells of ranks 0 .. r, in global order |
| GvecShells.IndexMap | src/SDDK/gvec.hpp:1391-1393 | idx_gvec maps exactly the remapped vectors, each to a position holding it |
| GvecShells.NewShells | src/SDDK/gvec.hpp:1329-1394 | from a bare set, the constructor yields the send and receive descriptors, the remapped vectors and shells, and idx_gvec |
| GvecShells.AllVectorsDistinct | src/SDDK/gvec.hpp:1391-1393 | the vectors of the set are distinct, so idx_gvec has one entry per remapped vector |
| GvecShells.GvecCountRemapped | src/SDDK/gvec.hpp:1409-1412 | gvec_count_remapped is the number of vectors whose shell this rank owns |
| GvecShells.IndexInRemapped | src/SDDK/gvec.hpp:1421-1429 | -1 exactly for a vector not held here; otherwise a position holding it |
| GvecShells.IndexRemappedRoundTrip | src/SDDK/gvec.hpp:1421-1429 | index_by_gvec(gvec_remapped(k)) == k |
| GvecShells.RemappedEntry | src/SDDK/gvec.hpp:1373-1390 | every remapped vector is a vector of the set, with its shell, and its shell is owned here |
| GvecShells.RemappedComplete | src/SDDK/gvec.hpp:1373-1390 | every vector whose shell is owned here is held, with its shell, at its rank among owned vectors |
| GvecShells.RemappedMembers | src/SDDK/gvec.hpp:1373-1390 | a vector is remapped here exactly when it is in the set and its shell is owned here |
| GvecShells.SendBufferAt | src/SDDK/gvec.hpp:1443-1449 | local entry i lands at a2a_send.offsets[owner] plus the number of earlier entries for that owner |
| GvecShells.UnpackSendBuffer | src/SDDK/gvec.hpp:1469-1476 | unpacking by the same positions restores the local data |
| GvecShells.PackForward | src/SDDK/gvec.hpp:1441-1449 | the packing loop writes the send buffer of the specification |
| GvecShells.UnpackBackward | src/SDDK/gvec.hpp:1469-1476 | the unpacking loop reads every entry back from its send position |
| GvecShells.RemapForward | src/SDDK/gvec.hpp:1437-1457 | remap_forward on every rank: pack, then alltoall with the send and receive descriptors |
| GvecShells.RemapBackward | src/SDDK/gvec.hpp:1460-1477 | remap_backward on every rank: alltoall with the descriptors swapped, then unpack; each result has count() entries |
| GvecShells.RemapRoundTrip | src/SDDK/gvec.hpp:1437-1477 | remap_backward(remap_forward(data)) == data on every rank |
| GvecShells.ForwardDelivers | src/SDDK/gvec.hpp:1437-1457 | remap_forward delivers to rank q the data of the vectors whose shells q owns, in global order |
| GvecShells.ForwardMatchesRemapped | src/SDDK/gvec.hpp:1373-1457 | remapping the vectors and the shells forward yields gvec_remapped and gvec_shell_remapped |
| GvecPartition.RankMapOf | src/SDDK/gvec.hpp:1175-1179 | the allreduced rank map holds at each cell the sum of the ranks at that cell |
| GvecPartition.RankMapInverse | src/SDDK/gvec.hpp:1175-1179 | when the grid tiles the communicator, rank_map_ is the inverse of the grid layout |
| GvecPartition.InverseOnce | src/SDDK/gvec.hpp:1175-1179 | every rank appears exactly once in the rank map |
| GvecPartition.RowHits | src/SDDK/gvec.hpp:1175-1179 | a rank appears once in its FFT row and in no other |
| GvecPartition.FftCounts | src/SDDK/gvec.hpp:1105-1112 | the FFT count of row a sums the counts of the ranks in that row |
| GvecPartition.FftCountsTotal | src/SDDK/gvec.hpp:1099-1117 | the FFT counts sum to the set's counts |
| GvecPartition.BuildFftDistr | src/SDDK/gvec.hpp:1099-1117 | the loops yield the FFT counts and offsets of vectors and columns |
| GvecPartition.ZcolOrderOnce | src/SDDK/gvec.hpp:1183-1194 | idx_zcol_ lists every column exactly once (a permutation of 0 .. num_zcol - 1) |
| GvecPartition.BuildIdxZcol | src/SDDK/gvec.hpp:1183-1194 | the loops build idx_zcol_ as the FFT rows' ranks' column blocks |
| GvecPartition.FftColumnsFill | src/SDDK/gvec.hpp:1120-1135 | each FFT rank's columns hold exactly its FFT G-vector count (the assert in calc_offsets) |
| GvecPartition.CalcOffsets | src/SDDK/gvec.hpp:1120-1135 | zcol_offs_ holds the running offset of every column inside its FFT rank's buffer |
| GvecPartition.OffsetsOfRank | src/SDDK/gvec.hpp:1124-1133 | one FFT rank's loop stores its running offsets and leaves earlier ranks' entries alone |
| GvecPartition.BuildIdxGvec | src/SDDK/gvec.hpp:1196-1203 | idx_gvec_ lists the global indices of the vectors of this FFT row's ranks, rank by rank |
| GvecPartition.IdxGvecCount | src/SDDK/gvec.hpp:1196-1203 | a vector index appears in idx_gvec_ once per appearance of its owner in the row |
| GvecPartition.PileGvec | src/SDDK/gvec.hpp:1137-1160 | the slab counts are the row's ranks' counts; their offsets end at the FFT count (the assert in pile_gvec) |
| GvecPartition.NewPartition | src/SDDK/gvec.hpp:1162-1207 | fails with "wrong size of communicators" exactly when the grid does not tile the communicator; otherwise every table above holds |
| Timers.Record | src/timer.cpp:37-49 | a stop appends its sample to its label's history and leaves every other history alone |
| Timers.RecordedTotal | src/timer.cpp:37-49 | recording a sample adds it to its label's total and leaves the other totals alone |
| Timers.Timer.Start | src/timer.cpp:11-21 | the timer becomes active with the given start time |
| Timers.Timer.Stop | src/timer.cpp:23-52 | the timer becomes inactive; the elapsed time is appended to its history in the table of its type; the other table is unchanged |
| Timers.Timer.Value | src/timer.cpp:54-79 | fails with "timer <label> is active" while active, changing nothing; otherwise returns the sum of the timer's samples, and the table gains an empty history for a label it lacked |
| Timers.StopAddsToValue | src/timer.cpp:23-79 | after a stop the value grows by exactly the elapsed time |
| Timers.MinFoldBounds | src/timer.cpp:149-154 | the running min is at most the seed and every sample, and is one of them |
| Timers.MaxFoldBounds | src/timer.cpp:149-154 | the running max is at least the seed and every sample, and is one of them |
| Timers.StatsMeaning | src/timer.cpp:142-156 | count and total of the history; min and max bound every sample; average × count == total; all zero for an empty history |
| Timers.ScanStats | src/timer.cpp:142-156 | the scan loop yields the statistics of the history |
| Timers.Aggregate | src/timer.cpp:255-273 | the reduction loop over the gathered statistics yields the combined statistics |
| Timers.GlobalStatsMeaning | src/timer.cpp:208-275 | a global label's total is the largest rank total; min and max are the least min and greatest max over ranks; the average is the summed totals over the summed counts; the count stays the rank's own |
| Timers.GlobalStatsAgree | src/timer.cpp:241-273 | every rank reports the same total, min, max and average for a global label |
| Timers.MissingRankZeroMin | src/timer.cpp:214-222 | a rank without samples reports min 0, so the global min is at most 0 |
| Timers.FlattenLabels | src/timer.cpp:165-176 | rank 0 produces each label's length and all labels' characters end to end |
| Timers.RebuildLabels | src/timer.cpp:197-205 | the other ranks cut the characters back into labels by the sizes |
| Timers.LabelsRoundTrip | src/timer.cpp:162-205 | cutting the flattened labels by their lengths gives the labels back |
| Timers.BroadcastLabels | src/timer.cpp:162-205 | after the broadcast every rank holds rank 0's label list |
| Timers.CollectLocal | src/timer.cpp:139-159 | every local timer gets the statistics of its history |
| Timers.CollectGlobal | src/timer.cpp:207-276 | every broadcast label gets its global statistics, replacing a local entry of the same label |
| Timers.CollectTimerStats | src/timer.cpp:133-279 | the keys are the local labels plus rank 0's global labels; global labels get their global statistics, the other local labels their local ones |

## Left out

- Floating point. The cutoff test `|M (G + k)| <= Gmax` is an abstract predicate, the shell length is an abstract integer key, and the Cartesian coordinates (`init_gvec_cart`, `gvec_cart`, `gkvec_cart`, `gvec_len`, `shell_len` as a double) are not modelled.
- Shells.AssignShells: a shell's length is stored as its integer key, not as `key * 1e-10` in a double.
- The first pass of `find_gvec_shells` is not modelled. It merges vectors related by a lattice symmetry into one shell, and needs `find_lat_sym` and floating-point lengths. The model numbers shells by the key alone.
- Timers.Timer.Stop, Timers.Elapsed, Timers.SumReal, Timers.StatsOf, Timers.Combined: doubles are exact reals, so rounding in sums and averages is not modelled.
- Timers.Timer.Start and Timers.Timer.Stop take `!active` and `active` as preconditions. The source prints a message and calls `Platform::abort` instead.
- GvecSet.Init: `BaseOk` (a base set that is a subset of the new one on the same communicator) and `ConvexInZ` (a cutoff convex along z, as a sphere is) are preconditions. The source does not check the base set, and it stops with "local G-vector index is not found" when the base set does not fit; BaseStaysLocal proves that check cannot fire under `BaseOk`.
- GvecSet.Init and GvecIndex.BuildIndex keep the reverse entry as an unsigned number. The source casts it to `int`, which breaks columns of 2048 or more vectors (see Findings). Init also requires fewer than 2^12 vectors per column (`nz < 2^12`) and at most 2^20 columns, the capacities of the packed entries.
- The checks in `init` (count, round trip) and in `distribute_z_columns` and the `Gvec_shells` constructor ("wrong number of G-vectors") are not branches of the model: lemmas prove they cannot fire (GvecIndex.BuildIndex, GvecIndex.IndexRoundTrip, Distribution.FinalAccounts, GvecShells.HistogramSum, GvecShells.RemappedTotal).
- GvecPartition.NewPartition: `GridLayout` (every rank has a distinct cell of the FFT × orthogonal grid) is a precondition. The source takes it from the communicators.
- GvecSet.Init and GvecSet.Assemble on a G+k set (`bare` false): `find_gvec_shells` returns at once, so the source leaves `gvec_shell_` and `gvec_shell_len_` empty and `num_gvec_shells_` uninitialised. The model leaves the tables empty and sets the number of shells to 0.
- The `Gvec` constructors are not modelled as members. Init takes what they fix as parameters: the box, the cutoff, `reduce`, the base set, and `bare`, which is false only for the G+k constructor (gvec.hpp:593-602); the `bare()` accessor is a field read.
- GvecShells.NewShells and GvecSet.Shell require a bare set. On a G+k set the source reads the empty `gvec_shell_` and the uninitialised shell count, which has no defined result.
- GvecSet.Init on an empty set: the source reads `gvec_full_index_(0)` past the end and calls `std::sort(begin() + 1, end())` on an empty list. The model returns Failure "first G-vector is not zero", the same outcome as a non-empty set without G = 0.
- Integer widths: `int` and `size_t` are unbounded integers, and the `(int)size()` casts are identities. The packed 32-bit index entries are the only place where width is modelled.
- `index_g12` (gvec.hpp:844-851) is `index_by_gvec(G1 - G2)` with debug `assert`s that the index is valid; it has no fallback to G2 - G1 and no conjugation flag. When its asserts hold it equals the non-conjugated branch of `index_g12_safe` (GvecSet.IndexG12Direct), so it is not modelled separately. The overload `index_g12_safe(int, int)` (gvec.hpp:874-878) only calls `STOP()`, so it is not modelled either.
- GvecSet.IndexG12Safe requires the (x, y) of G1 - G2, and of G2 - G1 when it is used, to lie inside the FFT box. The source reads `gvec_index_by_xy_` there without a bounds check.
- Communicators, `splindex<block_cyclic>` (taken as `igsh % P` with block size 1), `block_data_descriptor` (counts plus `Offsets`), and MPI collectives as message passing: the collectives are pure functions of every rank's data.
- `pack`, `unpack`, `send_recv`, `serialize`, the move constructors and assignments, `print_gvec`, `gather_pw_fft`, `gather_pw_global` and the `Gvec_partition` accessors (plain reads of the model's fields) are not modelled.
- Aliasing and update in place: the tables are values. Only PackForward, UnpackBackward, FillRemapped and FillRank write arrays, and the Timer class updates its fields.
- `Timer::print`, `Timer::delay` and the `ftimers` map in timer.cpp are not modelled (output and busy-waiting). src/timer.h is not part of this model, so the Timer constructor only sets the fields the methods use.
- Timers.CollectLocal and Timers.FlattenLabels: `std::map` iterates in key order. The model takes the labels as an input sequence listing each key once (`Enumerates`), in any order.
- Timers.Timer.Value returns Failure where the source calls `error_local`.

## Findings

| source | as written | input that shows it | evidently intended | confidence | as-written member | corrected member |
|---|---|---|---|---|---|---|
| src/SDDK/gvec.hpp:528-529 | the reverse entry `(size << 20) + i` is stored with `static_cast<int>`, and line 900 decodes the size with `>> 20` on that int | one (0, 0) column of 2048 vectors (nz = 2048, zHi = 1023, all inside): the entry is negative, the size decodes to -2048, and index_by_gvec((0, 0, -1)) returns -2049 instead of 2047, so init's round-trip check stops the program | keep the entry unsigned (or limit columns to fewer than 2^11 vectors) so that every size below 2^12 decodes back | not executed | GvecIndex.IndexByGvecAsWritten, GvecIndex.AsWrittenLookupFails | GvecIndex.IndexByGvec, GvecIndex.IndexRoundTrip |
