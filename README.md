# g2o engine core in Dafny

A model of the bookkeeping at the centre of g2o, the general graph
optimisation library, with proofs about it. It covers:

- the block-sparse matrices: block boundaries, the hash-map pattern built by
  `addBlock`, the compressed-column (CCS) arrays emitted by `fillCCS`, and the
  block matrix–vector products;
- the CCS pattern of `MatrixStructure` (capacity growth, symmetric
  expansion and ordering) and the triplet expansion of `sparse_helper`;
- the quadratic form of `BaseEdge`, its information-matrix serialiser and
  its parameter ids;
- the robust kernels as functions from the squared error to the triple
  (ρ, ρ′, ρ″);
- the registration rules of `OptimizableGraph`: vertices, edges, actions,
  solver suitability, renamed types and the selections `save` writes;
- the `SparseOptimizer` driver: active-set selection, the two-pass Hessian
  index mapping, gauge detection, the iteration loop and the update walk;
- the Levenberg–Marquardt damping loop, with its λ/ν rules and the
  push/pop balance of the saved estimates;
- the structure of the PCG linear solver: block extraction, the symmetric
  product from upper-triangle storage, and the tolerance and iteration cap;
- the CSparse solver-name decoding, the string utilities, and the
  command-line scan of `g2o_common`.

Each modelled source file, with its header, is a module
(`SparseBlockCCS`, `SparseBlockDiagonal`, `MatrixStructureModel`,
`SparseHelper`, `BaseEdgeModel`, `RobustKernels`, `OptimizableGraphModel`,
`SparseOptimizerModel`, `LevenbergModel`, `PcgModel`, `SolverCSparse`,
`StringTools`, `G2oCommon`). Two modules are shared helpers rather than
source files: `BlockLayout` holds the block-boundary vector that the three
sparse block matrices have in common, and `DenseBlocks` the dense blocks
and the segment-wise products of `matrix_operations.h` and the PCG solver.
`Wrappers`, `Sequences` and `Sorting` are generic helpers. Objects whose fields the C++ code updates are classes
whose methods are proved against specification functions; pure code is
functions and lemmas.

Doubles are modelled as exact reals and integers as unbounded integers.
`sqrt`, `log`, `log1p` and `exp` are function parameters constrained by the
few laws the proofs need. Where the documented behaviour and the code
disagree, the model follows the code:

- A failed linear solve in `OptimizationAlgorithmLevenberg::solve` sets the
  trial χ² to `std::numeric_limits<double>::max()`. That value is finite,
  so it is not an infinite χ². Such a trial is rejected because its gain
  ratio is negative when the predicted gain is positive
  (`LevenbergModel.FailedSolveRejected`), not because χ² is infinite.
- Fair's ρ″ at e = 0 divides by zero. The model returns −∞ there, which is
  what IEEE arithmetic gives.

## Model

| member | source | states |
|---|---|---|
| StringTools.FindFirstNotOf | g2o/stuff/string_tools.cpp:49 | the first position at or after `from` whose character is not in the set; every character before it is in the set, and None means every remaining character is |
| StringTools.FindFirstOf | g2o/stuff/string_tools.cpp:140 | the first position at or after `from` whose character is in the set; none before it is, and None means none at all is |
| StringTools.FindLastNotOf | g2o/stuff/string_tools.cpp:50 | the last position whose character is not in the set; every later one is in the set |
| StringTools.Trim | g2o/stuff/string_tools.cpp:47-53 | an all-blank input gives ""; a non-empty result neither starts nor ends with ' ', '\t' or '\n'; the result is no longer than the input |
| StringTools.TrimStripsOnlyBlanks | g2o/stuff/string_tools.cpp:47-53 | the input is the trimmed string with a run of blanks before it and a run of blanks after it |
| StringTools.TrimIdempotent | g2o/stuff/string_tools.cpp:47-53 | trimming twice gives the same string as trimming once |
| StringTools.TrimLeft | g2o/stuff/string_tools.cpp:55-61 | the result is a suffix of the input preceded only by blanks, and starts with a non-blank when non-empty |
| StringTools.TrimRight | g2o/stuff/string_tools.cpp:63-69 | the result is a prefix of the input followed only by blanks, and ends with a non-blank when non-empty |
| StringTools.StrToLower | g2o/stuff/string_tools.cpp:71-76 | same length as the input, each character mapped on its own by the "C"-locale tolower |
| StringTools.StrToUpper | g2o/stuff/string_tools.cpp:78-83 | same length as the input, each character mapped on its own by the "C"-locale toupper |
| StringTools.LowerCharProperties | g2o/stuff/string_tools.cpp:71-83 | a lowered character is never an upper-case ASCII letter; lowering is idempotent and upper-casing ignores a prior lowering |
| StringTools.StrSplit | g2o/stuff/string_tools.cpp:132-146 | the do-while loop over find_first_of returns exactly the tokens of the split specification (none for "") |
| StringTools.TokenCount | g2o/stuff/string_tools.cpp:138-143 | a non-empty string gives one more token than it has delimiter characters |
| StringTools.TokensHaveNoDelimiters | g2o/stuff/string_tools.cpp:138-143 | no token contains a delimiter character |
| StringTools.SplitJoin | g2o/stuff/string_tools.cpp:138-143 | interleaving the tokens with the delimiter characters they were split on gives back the input |
| StringTools.SplitProperties | g2o/stuff/string_tools.cpp:132-146 | strSplit("") is empty; otherwise the token count is one more than the delimiter count and the tokens rebuild the input |
| StringTools.TrailingDelimiterGivesEmptyToken | g2o/stuff/string_tools.cpp:138-143 | a string ending in a delimiter has "" as its last token |
| StringTools.SplitAroundSeparator | g2o/stuff/string_tools.cpp:132-146 | splitting lhs + c + rhs on c, neither side holding c, gives [lhs, rhs] |
| StringTools.SplitWithoutSeparator | g2o/stuff/string_tools.cpp:132-146 | a string without the delimiter gives at most one token |
| StringTools.StartsWith | g2o/stuff/string_tools.cpp:148-151 | true exactly when `start` is a prefix of s (so false when it is longer) |
| StringTools.EndsWith | g2o/stuff/string_tools.cpp:153-156 | true exactly when `end` is no longer than s and equals its last characters |
| StringTools.FindLastOf | g2o/stuff/sparse_helper.cpp:40 | std::string::find_last_of: a position holding a character of the set, with no such character after it; none exactly when the set does not occur |
| BlockLayout.Size | g2o/core/sparse_block_matrix_ccs.h:54-60 | rows()/cols(): with sound boundaries, a non-negative size that bounds every block boundary (the last boundary, or 0 when there is none) |
| BlockLayout.BaseOfBlock | g2o/core/sparse_block_matrix_ccs.h:90-94 | where block r starts: the previous boundary for r > 0 (0 for r = 0), between 0 and the block's own boundary |
| BlockLayout.DimOfBlock | g2o/core/sparse_block_matrix_ccs.h:78-88 | rowsOfBlock/colsOfBlock: the base plus the width is the block's boundary; the width is non-negative for sound boundaries |
| BlockLayout.StrictBlocksNonEmpty | g2o/core/sparse_block_matrix_ccs.h:78-88 | with boundaries that start above 0 and strictly increase, every block width is positive |
| BlockLayout.WidthsAddUp | g2o/core/sparse_block_matrix_ccs.h:78-94 | the widths of the first n blocks add up to boundary n - 1 |
| BlockLayout.WidthsAddUpToSize | g2o/core/sparse_block_matrix_ccs.h:54-94 | all block widths add up to cols()/rows() |
| BlockLayout.EveryIndexInABlock | g2o/core/sparse_block_matrix_ccs.h:78-94 | every scalar index below the size lies inside some block |
| BlockLayout.FirstAbove | g2o/core/sparse_block_matrix_ccs.h:78-94 | finds the block that holds a scalar index |
| DenseBlocks.Zero | g2o/core/sparse_block_matrix_ccs.h:274-275 | a rows x cols block with every entry 0 (setZero) |
| DenseBlocks.Transpose | g2o/solvers/pcg/linear_solver_pcg.hpp:68-79 | entry (r, c) of the transpose is entry (c, r) of the block |
| DenseBlocks.SetSegment | g2o/solvers/pcg/linear_solver_pcg.hpp:42-52 | y.segment(off, n) = v: the segment holds v and every other entry is unchanged |
| DenseBlocks.AddSegment | g2o/solvers/pcg/linear_solver_pcg.hpp:55-79 | y.segment(off, n) += v: the segment is increased by v and every other entry is unchanged |
| DenseBlocks.AtxpyIsAxpyOfTranspose | g2o/solvers/pcg/linear_solver_pcg.hpp:55-79 | pcg_atxpy with A is pcg_axpy with the transpose of A |
| DenseBlocks.IdentityMulVec | g2o/solvers/pcg/linear_solver_pcg.hpp:42-52 | the identity block times x is x |
| DenseBlocks.AxpyZeroBlock | g2o/solvers/pcg/linear_solver_pcg.hpp:55-66 | pcg_axpy with a zero block leaves y unchanged |
| DenseBlocks.AxpyInPlace | g2o/solvers/pcg/linear_solver_pcg.hpp:55-66 | the in-place loop over the array leaves y equal to the pcg_axpy specification applied to its old contents |
| DenseBlocks.AtxpyInPlace | g2o/solvers/pcg/linear_solver_pcg.hpp:68-79 | the in-place loop over the array leaves y equal to the pcg_atxpy specification applied to its old contents |
| SparseBlockCCS.SparseBlockMatrixCCS.constructor | g2o/core/sparse_block_matrix_ccs.h:74-76 | keeps the given row and column boundaries and starts with no block columns |
| SparseBlockCCS.SparseBlockMatrixCCS.Cols | g2o/core/sparse_block_matrix_ccs.h:54-56 | cols() is the column layout's size, non-negative for sound boundaries |
| SparseBlockCCS.SparseBlockMatrixCCS.Rows | g2o/core/sparse_block_matrix_ccs.h:58-60 | rows() is the row layout's size, non-negative for sound boundaries |
| SparseBlockCCS.SparseBlockMatrixCCS.SetBlockCols | g2o/core/sparse_block_matrix_ccs.h:98 | writing through blockCols() replaces the block columns |
| SparseBlockCCS.SparseBlockMatrixCCS.RightMultiply | g2o/core/sparse_block_matrix_ccs.h:106-132 | a null dest is first allocated as cols() zeros; then dest becomes old dest + A^T * src, one atxpy per block at (row base of its block row, column base of its block column) |
| SparseBlockCCS.MultiplyBlockColumn | g2o/core/sparse_block_matrix_ccs.h:122-130 | the loop over one block column's blocks leaves dest equal to that column's product specification |
| SparseBlockCCS.MulBlockAt | g2o/core/sparse_block_matrix_ccs.h:124-129 | one atxpy adds, at each scalar column of the block, that column's entries times the source, and leaves every other index alone |
| SparseBlockCCS.MulColumnAt | g2o/core/sparse_block_matrix_ccs.h:121-131 | the first n blocks of a block column add, at each of its scalar columns, the dot product of the entries they give that column with src |
| SparseBlockCCS.MulColumnOutside | g2o/core/sparse_block_matrix_ccs.h:121-131 | a block column changes only its own scalar columns of dest |
| SparseBlockCCS.MulColumnsAt | g2o/core/sparse_block_matrix_ccs.h:121-131 | after the first n block columns, each scalar column of an earlier block column holds its old value plus its CCS column times src |
| SparseBlockCCS.ProductIsCCSProduct | g2o/core/sparse_block_matrix_ccs.h:106-132 | rightMultiply agrees with the scalar matrix that fillCCS writes: entry k of the result is y[k] plus CCS column k (Cp[k]..Cp[k+1]) times src |
| SparseBlockCCS.SparseBlockMatrixCCS.SortColumns | g2o/core/sparse_block_matrix_ccs.h:137-141 | every block column is ordered by block row (RowBlock::operator<) and holds the same blocks as before |
| SparseBlockCCS.SortingKeepsWellFormed | g2o/core/sparse_block_matrix_ccs.h:137-141 | permuting the blocks of each column keeps every block's shape fitting its block row and column |
| SparseBlockCCS.SortedDistinctIsStrict | g2o/core/sparse_block_matrix_ccs.h:70 | a column sorted by block row whose block rows are distinct is strictly increasing |
| SparseBlockCCS.SparseBlockMatrixCCS.FillCCS | g2o/core/sparse_block_matrix_ccs.h:146-172 | Cp, Ci and Cx are the column pointers, row indices and values of the scalar CCS form, and the returned nz is the number of entries |
| SparseBlockCCS.FillBlockColumn | g2o/core/sparse_block_matrix_ccs.h:151-168 | one block column appends one pointer per scalar column and the entries of its scalar columns |
| SparseBlockCCS.FillScalarColumn | g2o/core/sparse_block_matrix_ccs.h:153-167 | one scalar column appends its entries after those of the block column's earlier scalar columns |
| SparseBlockCCS.WritePointer | g2o/core/sparse_block_matrix_ccs.h:154-170 | `*Cp = nz; ++Cp` extends the column starts by the current entry count |
| SparseBlockCCS.FillColumn | g2o/core/sparse_block_matrix_ccs.h:155-166 | the loop over a column's blocks appends, for each block, its (possibly clipped) run of rows and values, and nz grows by their number |
| SparseBlockCCS.WriteRun | g2o/core/sparse_block_matrix_ccs.h:161-165 | the innermost copy appends n values of one block column with consecutive row indices from rstart, and nz grows by n |
| SparseBlockCCS.RunEntries | g2o/core/sparse_block_matrix_ccs.h:159-165 | the k-th copied entry has row rstart + k and the block's value at (k, c) |
| SparseBlockCCS.BlockEntriesRows | g2o/core/sparse_block_matrix_ccs.h:157-165 | a block's run has consecutive rows from its row base and copies at most elemsToCopy, never beyond the block |
| SparseBlockCCS.SparseBlockMatrixCCS.FillCCSValues | g2o/core/sparse_block_matrix_ccs.h:179-199 | the values-only fillCCS writes the same value sequence as the full fillCCS, and returns its length |
| SparseBlockCCS.FillBlockColumnValues | g2o/core/sparse_block_matrix_ccs.h:183-197 | one block column appends the values of its scalar columns, column after column |
| SparseBlockCCS.FillColumnValues | g2o/core/sparse_block_matrix_ccs.h:186-194 | each memcpy appends the head of the block's column c, clipped as in the full fillCCS |
| SparseBlockCCS.CCSPointersShape | g2o/core/sparse_block_matrix_ccs.h:146-172 | Cp has cols() + 1 entries, Cp[0] == 0, the last entry is nz, and Cp never decreases |
| SparseBlockCCS.CCSColumn | g2o/core/sparse_block_matrix_ccs.h:146-172 | the entries between Cp[k] and Cp[k + 1] are exactly scalar column k, where k is column c of block column i |
| SparseBlockCCS.CCSIsClosedOffsets | g2o/core/sparse_block_matrix_ccs.h:146-172 | Cp is the running entry count of the scalar columns, and Ci/Cx hold the columns one after the other |
| SparseBlockCCS.ColumnStartsAreOffsets | g2o/core/sparse_block_matrix_ccs.h:150-169 | each column pointer is the number of entries written before that column |
| SparseBlockCCS.EntriesAreConcat | g2o/core/sparse_block_matrix_ccs.h:150-169 | the entries written are the scalar columns in column order |
| SparseBlockCCS.AllColumnsAt | g2o/core/sparse_block_matrix_ccs.h:150-153 | scalar column c of block column i is scalar column colBaseOfBlock(i) + c of the matrix |
| SparseBlockCCS.ScalarColumnOrdered | g2o/core/sparse_block_matrix_ccs.h:155-166 | after sortColumns, the rows of each scalar column strictly increase and lie inside the matrix |
| SparseBlockCCS.ColumnEntriesOrdered | g2o/core/sparse_block_matrix_ccs.h:155-166 | in a sorted column the first n blocks give strictly increasing rows, all below the end of the last of them |
| SparseBlockCCS.ScalarColumnUpper | g2o/core/sparse_block_matrix_ccs.h:159-160 | with upperTriangle on a matrix whose blocks lie on or above the block diagonal, scalar column k keeps only rows <= k |
| SparseBlockCCS.ColumnEntriesUpper | g2o/core/sparse_block_matrix_ccs.h:159-160 | the same for the first n blocks of the column |
| SparseBlockCCS.SparseBlockMatrixHashMap.constructor | g2o/core/sparse_block_matrix_ccs.h:231-233 | keeps the given boundaries and starts with no block columns |
| SparseBlockCCS.SparseBlockMatrixHashMap.Cols | g2o/core/sparse_block_matrix_ccs.h:221-223 | cols() is the column layout's size |
| SparseBlockCCS.SparseBlockMatrixHashMap.Rows | g2o/core/sparse_block_matrix_ccs.h:225-227 | rows() is the row layout's size |
| SparseBlockCCS.SparseBlockMatrixHashMap.ResizeBlockCols | g2o/core/sparse_block_matrix_ccs.h:255 | blockCols().resize(n): n columns, the kept ones unchanged and the new ones empty; shapes still fit |
| SparseBlockCCS.SparseBlockMatrixHashMap.AddBlock | g2o/core/sparse_block_matrix_ccs.h:266-280 | returns the stored block at (r, c) and changes nothing when there is one; otherwise stores and returns a new rowsOfBlock(r) x colsOfBlock(c) block, zero when zeroBlock, and changes no other entry or column |
| SparseBlockDiagonal.SparseBlockMatrixDiagonal.constructor | g2o/core/sparse_block_matrix_diagonal.h:59-60 | keeps the given block indices and starts with no diagonal blocks |
| SparseBlockDiagonal.SparseBlockMatrixDiagonal.Cols | g2o/core/sparse_block_matrix_diagonal.h:52 | cols(): the last block index, or 0 without blocks; non-negative for sound indices |
| SparseBlockDiagonal.SparseBlockMatrixDiagonal.Rows | g2o/core/sparse_block_matrix_diagonal.h:54 | rows() equals cols(): the matrix is square |
| SparseBlockDiagonal.SparseBlockMatrixDiagonal.SetDiagonal | g2o/core/sparse_block_matrix_diagonal.h:72 | writing through diagonal() replaces the blocks |
| SparseBlockDiagonal.SparseBlockMatrixDiagonal.Multiply | g2o/core/sparse_block_matrix_diagonal.h:77-99 | a null dest is first allocated as cols() zeros; then dest becomes old dest plus every diagonal block times its segment of src |
| SparseBlockDiagonal.MultiplyBlock | g2o/core/sparse_block_matrix_diagonal.h:91-98 | one loop step: block i reads and accumulates at the same offset baseOfBlock(i), extending the product by one block |
| SparseBlockDiagonal.DiagonalProductStep | g2o/core/sparse_block_matrix_diagonal.h:91-98 | block i changes only its own segment, where it adds its row times the source segment |
| SparseBlockDiagonal.DiagonalProductBeyond | g2o/core/sparse_block_matrix_diagonal.h:91-98 | indices past the blocks processed so far keep their old dest value |
| SparseBlockDiagonal.DiagonalProductSettled | g2o/core/sparse_block_matrix_diagonal.h:91-98 | later blocks leave the segments of earlier blocks alone |
| SparseBlockDiagonal.DiagonalProductInBlock | g2o/core/sparse_block_matrix_diagonal.h:77-99 | block-diagonal: inside block i's segment the result is the old dest plus block i times the same segment of src, and nothing else |
| SparseBlockDiagonal.IdentityBlocksReproduceSource | g2o/core/sparse_block_matrix_diagonal.h:77-99 | with identity blocks covering every block index, multiplying into a freshly allocated dest yields src |
| MatrixStructureModel.MatrixStructure.constructor | g2o/core/matrix_structure.cpp:44-76 | a new structure is empty: no sizes, no capacities, no arrays |
| MatrixStructureModel.MatrixStructure.Alloc | g2o/core/matrix_structure.cpp:46-65 | an empty structure takes exactly the requested sizes with fresh arrays; otherwise n becomes n_ and each capacity that is too small becomes twice the request with a fresh array, the others kept; capacities always cover the request |
| MatrixStructureModel.MatrixStructure.Free | g2o/core/matrix_structure.cpp:67-76 | every size and capacity back to 0 and both arrays released |
| MatrixStructureModel.MatrixStructure.Pattern | g2o/core/matrix_structure.cpp:86-94 | the stored (row, column) pairs read column by column through Ap/Aii, all with value 0 |
| MatrixStructureModel.MatrixStructure.Write | g2o/core/matrix_structure.cpp:78-110 | the written file has the name without its extension, rows m and columns n, nnz equal to its line count (stored entries plus one mirror per off-diagonal entry), lines sorted by ColSort, a permutation of the expanded pattern, closed under mirroring, every value 0 |
| MatrixStructureModel.MatrixStructure.WritePattern | g2o/core/matrix_structure.cpp:86-94 | the outer loop emits the expansion (entry, then its mirror when off the diagonal) of the whole pattern, column by column |
| MatrixStructureModel.MatrixStructure.WriteColumn | g2o/core/matrix_structure.cpp:88-93 | the inner loop appends the expansion of column i's entries rbeg .. rend - 1 |
| MatrixStructureModel.SymmetricZeroLines | g2o/core/matrix_structure.cpp:86-107 | any reordering of an expanded zero pattern is closed under mirroring and all zero |
| MatrixStructureModel.ZeroPattern | g2o/core/matrix_structure.cpp:105-106 | every entry of the structure carries the constant value 0 |
| Sorting.Insert | g2o/core/matrix_structure.cpp:36-42 | inserting into a sequence ordered by the comparator's key keeps it ordered and adds exactly the one element |
| Sorting.SortByKey | g2o/core/matrix_structure.cpp:96 | std::sort with a key comparator (ColSort, TripletColSort, RowBlock::operator<, id order): the result is ordered by the key and is a permutation of the input |
| SparseHelper.Expand | g2o/stuff/sparse_helper.cpp:72-76 | the expansion of n stored entries has n triplets plus, for an upper-triangle matrix, one per off-diagonal entry |
| SparseHelper.ExpandMembers | g2o/stuff/sparse_helper.cpp:72-76 | a triplet is emitted exactly when some stored entry is it or, for an upper-triangle matrix, is its off-diagonal mirror |
| SparseHelper.ExpandSymmetric | g2o/stuff/sparse_helper.cpp:74-75 | the expansion of an upper triangle is symmetric: the mirror of every emitted triplet is emitted |
| SparseHelper.ExpandAppend | g2o/stuff/sparse_helper.cpp:73-75 | one more stored entry appends exactly its own expansion |
| SparseHelper.CCSCount | g2o/stuff/sparse_helper.cpp:68-77 | with non-decreasing Ap there are Ap[cols] - Ap[0] stored entries |
| SparseHelper.CCSMembers | g2o/stuff/sparse_helper.cpp:69-73 | the stored entries are exactly (Ai[j], i, Ax[j]) for every column i and every j in [Ap[i], Ap[i+1]) |
| SparseHelper.ColumnMembers | g2o/stuff/sparse_helper.cpp:72-73 | column i holds exactly the entries at positions rbeg .. rend - 1 |
| SparseHelper.TripletCoords | g2o/stuff/sparse_helper.cpp:88-89 | the nz coordinate triplets (Ai[i], Aj[i], Ax[i]), one per i |
| SparseHelper.MatrixName | g2o/stuff/sparse_helper.cpp:39-41 | the name is a prefix of the filename: the whole of it without a '.', otherwise everything before the last '.' |
| SparseHelper.ZeroBasedOneBased | g2o/stuff/sparse_helper.cpp:52 | the 1-based indices written are read back as the 0-based triplets |
| SparseHelper.TripletFile | g2o/stuff/sparse_helper.cpp:37-55 | writeTripletEntries: header name from the filename, nnz the number of triplets, rows and columns as given, one line per triplet with 1-based indices |
| SparseHelper.EmitEntry | g2o/stuff/sparse_helper.cpp:73-75 | emplace_back of the entry, and of its mirror when symmetric and off the diagonal |
| SparseHelper.ExpandColumn | g2o/stuff/sparse_helper.cpp:72-76 | the inner loop appends the expansion of column i's entries rbeg .. rend - 1 |
| SparseHelper.ExpandCCS | g2o/stuff/sparse_helper.cpp:69-77 | the loops of writeCCSMatrix emit the expansion of every stored entry, column by column |
| SparseHelper.ExpandTriplets | g2o/stuff/sparse_helper.cpp:88-92 | the loop of writeTripletMatrix emits the expansion of the nz triplets in order |
| SparseHelper.WriteCCSMatrix | g2o/stuff/sparse_helper.cpp:64-80 | the file holds, sorted by column then row, a permutation of the expanded CCS entries, with nnz their number, the given dimensions and the name from the filename |
| SparseHelper.WriteTripletMatrix | g2o/stuff/sparse_helper.cpp:82-95 | the same for nz coordinate triplets |
| BaseEdgeModel.Extract | g2o/core/base_edge.h:173 | `is >> x`: from a good stream with tokens left, the next token and the rest of the stream, at eof without failing exactly when the input ends right after that token; otherwise the stream fails, and it reaches eof exactly when the read runs past a clean end of input |
| BaseEdgeModel.Chi2Of | g2o/core/base_edge.h:94 | chi2(): error . (information * error); a zero error has chi-square 0 |
| BaseEdgeModel.Chi2Scaled | g2o/core/base_edge.h:94 | the chi-square error . (information * error) under w * information is w times the chi-square |
| BaseEdgeModel.Chi2Identity | g2o/core/base_edge.h:94 | with the identity as information the chi-square is the squared norm of the error, never negative |
| BaseEdgeModel.UpperPositionsCount | g2o/core/base_edge.h:162-167 | the upper triangle of an n x n matrix has n (n + 1) / 2 positions |
| BaseEdgeModel.UpperPositionsCover | g2o/core/base_edge.h:162-167 | every position (i, j) with i <= j is among those written |
| BaseEdgeModel.WriteRow | g2o/core/base_edge.h:164-165 | the inner writing loop emits row i from the diagonal on, after what was written before |
| BaseEdgeModel.WriteUpperTriangle | g2o/core/base_edge.h:162-167 | the writing loops emit exactly the entries (i, j) with i <= j, row-major, n (n + 1) / 2 of them |
| BaseEdgeModel.SetSymAt | g2o/core/base_edge.h:173-174 | one read sets entry (i, j) and its mirror to the value read, and nothing else |
| BaseEdgeModel.ReadEntry | g2o/core/base_edge.h:173-174 | one inner iteration of the reader is one read step: the stream advances and (i, j) and (j, i) receive the value |
| BaseEdgeModel.ReadRow | g2o/core/base_edge.h:172-175 | the inner reading loop reads row i from the diagonal on while the stream is good |
| BaseEdgeModel.ReadUpperTriangle | g2o/core/base_edge.h:171-175 | the reading loops read the upper triangle, row by row, while the stream is good |
| BaseEdgeModel.ReadUpperAppend | g2o/core/base_edge.h:171-175 | reading positions a + b is reading a, then b |
| BaseEdgeModel.ReadKeepsSymmetry | g2o/core/base_edge.h:170-177 | reading keeps a symmetric information matrix symmetric, whatever the stream holds |
| BaseEdgeModel.ReadStopsAtTightEnd | g2o/core/base_edge.h:171-175 | when the input ends right after its last value, the reader stops at that value: the result is that of reading only as many positions as there are values, and the stream is left at eof without failing |
| BaseEdgeModel.TightEndKeepsMirror | g2o/core/base_edge.h:170-177 | reading the values 1 and 2 into a 3 x 3 matrix: entry (2, 0) keeps its value when the input ends right after the 2, and takes the old (0, 2) through the failed third read's mirror copy when a blank follows; both runs end at eof |
| BaseEdgeModel.ReadWriteInformation | g2o/core/base_edge.h:162-177 | reading back what writeInformationMatrix wrote from a symmetric matrix reproduces it, whatever the matrix held before, and leaves the stream good at what follows |
| BaseEdgeModel.BaseEdge.constructor | g2o/core/base_edge.h:92 | dimension_ = D, with information and error sized to match |
| BaseEdgeModel.BaseEdge.RobustInformation | g2o/core/base_edge.h:153-159 | every entry is rho[1] times the information entry (no second-order term), so the reweighted chi-square is rho[1] times chi2() |
| BaseEdgeModel.BaseEdge.SetDimension | g2o/core/base_edge.h:135-140 | for a dynamic edge: dimension_ = dim, a dim x dim information matrix and an error vector of length dim; the parameters are untouched |
| BaseEdgeModel.BaseEdge.WriteInformationMatrix | g2o/core/base_edge.h:162-167 | writes the upper triangle row by row, n (n + 1) / 2 values |
| BaseEdgeModel.BaseEdge.ReadInformationMatrix | g2o/core/base_edge.h:170-177 | the information matrix becomes the result of reading the upper triangle while the stream is good (so the loop stops after a value that ends the input, and after the first failed read, whose mirror copy still runs); success iff the stream is good or at eof; nothing else changes |
| BaseEdgeModel.BaseEdge.SetParameterId | g2o/core/optimizable_graph.cpp:135-141 | fails and changes nothing for argNum outside [0, number of parameters); otherwise stores the id and clears the resolved parameter |
| BaseEdgeModel.BaseEdge.WriteParamIds | g2o/core/base_edge.h:179-182 | writes every parameter id, in order |
| BaseEdgeModel.BaseEdge.ReadParamIds | g2o/core/base_edge.h:184-191 | numParameters() reads, each passed in order to setParameterId: from a good stream id i is token i and exactly that many tokens are consumed; every resolved parameter is cleared; success iff the stream is good or at eof, which is: always when the stream is good and long enough (it is left at eof when the last read takes a token that ends the input); when it runs short, iff the missing token is at the end of the input rather than malformed (the stream then fails, at eof exactly in that case); for a stream not good on entry, iff it was at eof (it is marked failed when there is a parameter to read, left as it was otherwise) |
| RobustKernels.Robustify | g2o/core/robust_kernel_impl.cpp:47-162 | robustify(e, rho) of every kernel; ScaleDelta without an inner kernel gives (e, 1, 0) |
| RobustKernels.SaturatedRobustify | g2o/core/robust_kernel_impl.cpp:135-146 | the cost is e capped at delta^2 (one of the two), with weight 1 up to delta^2 and 0 beyond |
| RobustKernels.HuberBounds | g2o/core/robust_kernel_impl.cpp:61-75 | Huber never costs more than e; its weight lies in (0, 1] and is 1 exactly when e <= delta^2; its second derivative is finite and not positive |
| RobustKernels.HuberSmoothAtDelta | g2o/core/robust_kernel_impl.cpp:67-74 | the outlier branch at e = delta^2 gives cost delta^2 and weight 1: cost and first derivative are continuous where the branches meet |
| RobustKernels.PseudoHuberBounds | g2o/core/robust_kernel_impl.cpp:77-85 | Pseudo-Huber's cost is not negative, its weight lies in (0, 1], its second derivative is negative |
| RobustKernels.RootBelowTangent | g2o/core/robust_kernel_impl.cpp:80-82 | sqrt(1 + x) <= 1 + x / 2, the bound behind Pseudo-Huber's cost |
| RobustKernels.PseudoHuberBelowError | g2o/core/robust_kernel_impl.cpp:77-85 | Pseudo-Huber never costs more than e |
| RobustKernels.CauchyBounds | g2o/core/robust_kernel_impl.cpp:87-94 | Cauchy's weight lies in (0, 1] and its second derivative is negative |
| RobustKernels.GemanMcClureBounds | g2o/core/robust_kernel_impl.cpp:96-101 | with a = delta / (delta + e): cost in [0, e], weight a^2 in (0, 1], second derivative negative |
| RobustKernels.WelschBounds | g2o/core/robust_kernel_impl.cpp:103-110 | Welsch's cost lies in [0, delta^2), its weight in (0, 1], its second derivative is negative |
| RobustKernels.FairDenominatorPositive | g2o/core/robust_kernel_impl.cpp:112-118 | on Fair's domain, a non-zero width with sqrt(e) / delta above -1 (for a negative width e < delta^2), the denominator 1 + sqrt(e) / delta is positive, so rho' and rho'' are finite away from e = 0 |
| RobustKernels.FairNegativeWidth | g2o/core/robust_kernel_impl.cpp:112-118 | a negative width is within the domain: delta = -1, e = 1/4 gives rho' = 2 and rho'' = -2 |
| RobustKernels.FairBounds | g2o/core/robust_kernel_impl.cpp:112-118 | Fair's weight lies in (0, 1]; its second derivative divides by sqrt(e) and is minus infinity exactly at e = 0, negative elsewhere |
| RobustKernels.TukeyBounds | g2o/core/robust_kernel_impl.cpp:120-133 | Tukey's cost lies in [0, delta^2 / 3] and its weight in [0, 1]; beyond delta^2 it is (delta^2 / 3, 0, 0) |
| RobustKernels.TukeySmoothAtDelta | g2o/core/robust_kernel_impl.cpp:120-133 | at e = delta^2 the biweight formula gives (delta^2 / 3, 0, 0), the outlier constant: cost and weight are continuous |
| RobustKernels.DcsBounds | g2o/core/robust_kernel_impl.cpp:149-162 | DCS is (e, 1, 0) while e <= phi (the scale 2 phi / (phi + e) is at least 1); beyond, its cost lies in [0, e] and its first derivative is negative |
| RobustKernels.ScaledErrorScales | g2o/core/robust_kernel_impl.cpp:49-51 | the error handed to the inner kernel is e / delta^2: it scales back to e, keeps the sign and maps 0 to 0 |
| RobustKernels.DefinedOnSquaredErrors | g2o/core/robust_kernel_impl.cpp:47-162 | with positive widths every kernel's arithmetic is defined on every squared error |
| RobustKernels.ZeroErrorIsNeutral | g2o/core/robust_kernel_impl.cpp:47-162 | with positive widths every kernel maps e = 0 to cost 0 and weight 1 |
| RobustKernels.DampingBelowError | g2o/core/robust_kernel_impl.cpp:47-162 | Huber, Pseudo-Huber, Geman-McClure, Saturated and DCS (alone or under ScaleDelta) never cost more than the squared error |
| RobustKernels.ScaledBelowError | g2o/core/robust_kernel_impl.cpp:47-59 | ScaleDelta around a kernel that costs at most its argument costs at most e |
| RobustKernels.ScaleDeltaUnit | g2o/core/robust_kernel_impl.cpp:47-59 | ScaleDelta with width 1 gives exactly the inner kernel's rho |
| RobustKernels.ScaleDeltaSaturated | g2o/core/robust_kernel_impl.cpp:47-59 | ScaleDelta of width delta around the unit Saturated kernel is the Saturated kernel of width delta |
| RobustKernels.ScaleDeltaHuber | g2o/core/robust_kernel_impl.cpp:47-75 | ScaleDelta of width delta around the unit Huber kernel is the Huber kernel of width delta |
| RobustKernels.ScaleDeltaHuberOutlier | g2o/core/robust_kernel_impl.cpp:52-53 | the Huber outlier branch commutes with ScaleDelta's scaling of rho[0] by delta^2 and rho[2] by 1 / delta^2 |
| OptimizableGraphModel.NumUndefinedVertices | g2o/core/optimizable_graph.cpp:250 | numUndefinedVertices(): zero exactly when every vertex slot is defined, never more than the slots |
| OptimizableGraphModel.OptimizableGraph.constructor | g2o/core/optimizable_graph.cpp:197-200 | an empty graph: no vertices, no edges, no parameters, no renamed types, no actions, edge counter 0 |
| OptimizableGraphModel.OptimizableGraph.AddVertex | g2o/core/optimizable_graph.cpp:202-226 | succeeds iff the id is non-negative, not yet registered and the vertex has no other owner; then the vertex is stored under its id with this graph as owner; nothing else changes, and nothing at all on failure |
| OptimizableGraphModel.AddVertexOnce | g2o/core/optimizable_graph.cpp:213-217 | once a vertex is registered, any vertex with the same id is rejected |
| OptimizableGraphModel.OptimizableGraph.RemoveVertex | g2o/core/optimizable_graph.cpp:228-233 | the vertex's owner is cleared if it was this graph; the result says whether its id was registered; a registered id is unregistered and, as `detach` says, its edges either lose the slots holding it or are removed; otherwise nothing changes |
| OptimizableGraphModel.RemovalIsolatesVertex | g2o/core/optimizable_graph.cpp:228-233 | after the removal no edge refers to the vertex; detaching keeps every edge and drops exactly that vertex from its defined vertices; removing keeps exactly the edges that did not touch it, unchanged |
| OptimizableGraphModel.OptimizableGraph.AddEdge | g2o/core/optimizable_graph.cpp:235-265 | an edge owned by another graph or already registered is rejected with nothing changed; otherwise it is stored with internal id nextEdgeId, which then increments (so internal ids stay distinct and below the counter); the result is true with an undefined vertex, else whether its parameters resolve |
| OptimizableGraphModel.OptimizableGraph.Chi2 | g2o/core/optimizable_graph.cpp:316-323 | the sum of the edges' chi2, whatever order the edge set is visited in |
| OptimizableGraphModel.ChiSumRemove | g2o/core/optimizable_graph.cpp:316-323 | any edge can be taken out of the sum first: the sum does not depend on the visiting order |
| OptimizableGraphModel.ChiSumNonNegative | g2o/core/optimizable_graph.cpp:316-323 | with non-negative edge errors the graph's chi2 is non-negative |
| OptimizableGraphModel.OptimizableGraph.MaxDimension | g2o/core/optimizable_graph.cpp:633-641 | at least 0, no vertex dimension above it, attained by a vertex unless 0 |
| OptimizableGraphModel.MaxDimensionUnique | g2o/core/optimizable_graph.cpp:633-641 | those three properties determine the result |
| OptimizableGraphModel.MaxDimensionAttained | g2o/core/optimizable_graph.cpp:633-641 | with a vertex of non-negative dimension the result is some vertex's dimension |
| OptimizableGraphModel.OptimizableGraph.IsSolverSuitable | g2o/core/optimizable_graph.cpp:671-695 | the decision table over the given dimensions, or over the graph's own dimensions when none are given: a solver fixing a pose dimension is suitable only if that dimension is among them, and one with no pose dimension and no marginalisation is always suitable |
| OptimizableGraphModel.OptimizableGraph.Dimensions | g2o/core/optimizable_graph.cpp:697-704 | exactly the set of vertex dimensions |
| OptimizableGraphModel.SuitableNeedsPose | g2o/core/optimizable_graph.cpp:671-695 | a suitable solver with a fixed pose dimension finds that dimension among the vertex dimensions |
| OptimizableGraphModel.UnconstrainedSuitable | g2o/core/optimizable_graph.cpp:671-695 | a solver with pose dimension -1 that does not marginalize suits every graph |
| OptimizableGraphModel.MarginalizingSuitable | g2o/core/optimizable_graph.cpp:680-693 | outside the one-dimension case a marginalizing solver is suitable iff there are two dimensions and they include its pose and landmark dimensions |
| OptimizableGraphModel.OptimizableGraph.SetRenamedTypesFromString | g2o/core/optimizable_graph.cpp:643-661 | the lookup table becomes the result of applying every comma-separated item in order, each registered only when it splits into two parts on '=' with a known right-hand side; nothing else changes |
| OptimizableGraphModel.RenameAllKeepsKnown | g2o/core/optimizable_graph.cpp:643-661 | parsing only adds entries, and every added entry maps to a known tag |
| OptimizableGraphModel.RenameOneEffect | g2o/core/optimizable_graph.cpp:647-660 | "lhs=rhs" with a known rhs registers trim(lhs) -> trim(rhs); an item without '=' changes nothing |
| OptimizableGraphModel.OptimizableGraph.SaveSelection | g2o/core/optimizable_graph.cpp:569-596 | save(level) selects exactly the defined vertices of the edges at that level, in increasing id order, and exactly those edges, each once, sorted by internal id |
| OptimizableGraphModel.OptimizableGraph.SaveSubsetSelection | g2o/core/optimizable_graph.cpp:598-619 | saveSubset(vset, level) keeps exactly the edges at the level whose vertices are all in vset, each once |
| OptimizableGraphModel.SaveEdgeSetSelection | g2o/core/optimizable_graph.cpp:621-631 | saveSubset(eset) saves exactly the defined vertices of the given edges |
| OptimizableGraphModel.SortedIds | g2o/core/optimizable_graph.cpp:572 | a std::set ordered by id: the same ids, increasing, each once |
| OptimizableGraphModel.Enumerate | g2o/core/optimizable_graph.cpp:586-591 | the elements of a set listed once each |
| OptimizableGraphModel.SortedDistinctIncreasing | g2o/core/optimizable_graph.cpp:572 | sorting distinct ids by id gives a strictly increasing list of the same ids |
| OptimizableGraphModel.PermutationOfDistinct | g2o/core/optimizable_graph.cpp:592 | sorting a list without repetition keeps its elements, length and lack of repetition |
| OptimizableGraphModel.OptimizableGraph.AddPreIterationAction | g2o/core/optimizable_graph.cpp:730-735 | the action joins the pre-iteration set; true iff it was not there |
| OptimizableGraphModel.OptimizableGraph.AddPostIterationAction | g2o/core/optimizable_graph.cpp:723-728 | the action joins the post-iteration set; true iff it was not there |
| OptimizableGraphModel.OptimizableGraph.RemovePreIterationAction | g2o/core/optimizable_graph.cpp:737-740 | the action leaves the pre-iteration set; true iff it was there |
| OptimizableGraphModel.OptimizableGraph.RemovePostIterationAction | g2o/core/optimizable_graph.cpp:742-745 | the action leaves the post-iteration set; true iff it was there |
| SparseOptimizerModel.LayerMembers | g2o/core/sparse_optimizer.cpp:154-166 | one pass of the numbering loop takes exactly the non-fixed vertices of the list whose marginalized flag matches the pass |
| SparseOptimizerModel.IndexOrderProperties | g2o/core/sparse_optimizer.cpp:152-168 | ivMap holds exactly the non-fixed vertices of the list, every non-marginalized one before every marginalized one, each once when the list has no repetition |
| SparseOptimizerModel.LayerDistinct | g2o/core/sparse_optimizer.cpp:154-166 | a list without repetition gives a pass without repetition |
| SparseOptimizerModel.IndexPass | g2o/core/sparse_optimizer.cpp:155-166 | one pass appends its layer to ivMap, numbers each appended vertex with its position, marks fixed vertices -1 and leaves vertices outside the list alone |
| SparseOptimizerModel.AssignHessianIndices | g2o/core/sparse_optimizer.cpp:152-168 | the two passes: ivMap is the Hessian order, each of its vertices has its position as Hessian index, fixed vertices -1, other vertices untouched |
| SparseOptimizerModel.ResetIndices | g2o/core/sparse_optimizer.cpp:171-176 | the vertices of ivMap get Hessian index -1 and nothing else changes |
| SparseOptimizerModel.AllVerticesIn | g2o/core/sparse_optimizer.cpp:209-215 | true iff every vertex of the edge lies in vset |
| SparseOptimizerModel.ScanVertexEdges | g2o/core/sparse_optimizer.cpp:206-221 | the edges of one vertex that are active: at the level (any level when negative), all vertices in vset, not all fixed |
| SparseOptimizerModel.CollectActive | g2o/core/sparse_optimizer.cpp:200-244 | the active vertices are exactly those of vset with an active edge, each once, and the edge set gathers exactly the active edges |
| SparseOptimizerModel.ActiveVerticesOfActiveEdges | g2o/core/sparse_optimizer.cpp:201-240 | the active vertices are exactly the defined vertices of the active edges |
| SparseOptimizerModel.SortedEdges | g2o/core/sparse_optimizer.cpp:474 | the edges of a set, each once, sorted with EdgeIDCompare |
| SparseOptimizerModel.SortedEdgesIncreasing | g2o/core/sparse_optimizer.cpp:474 | distinct edges with distinct internal ids, sorted by internal id, have strictly increasing internal ids |
| SparseOptimizerModel.SelectActive | g2o/core/sparse_optimizer.cpp:196-246 | the active vertices (strictly increasing ids) and edges (strictly increasing internal ids) of initializeOptimization(vset, level) |
| SparseOptimizerModel.KeptEdges | g2o/core/sparse_optimizer.cpp:263-270 | the edges of eset without undefined vertices |
| SparseOptimizerModel.SelectFromEdges | g2o/core/sparse_optimizer.cpp:259-276 | initializeOptimization(eset): the edges without undefined vertices, sorted by internal id, and the union of their vertices, sorted by id |
| SparseOptimizerModel.LowerBound | g2o/core/sparse_optimizer.cpp:485-500 | std::lower_bound: on a list sorted by the key, the first position whose key is not below x |
| SparseOptimizerModel.ChiTotalNonNegative | g2o/core/sparse_optimizer.cpp:84-91 | with non-negative edge errors activeChi2() is non-negative |
| SparseOptimizerModel.RobustChiWithoutKernels | g2o/core/sparse_optimizer.cpp:93-105 | without robust kernels activeRobustChi2() equals activeChi2() |
| SparseOptimizerModel.RobustChiAtMost | g2o/core/sparse_optimizer.cpp:93-105 | with damping kernels (those never costing more than the squared error) activeRobustChi2() is at most activeChi2() |
| SparseOptimizerModel.StepsBounds | g2o/core/sparse_optimizer.cpp:369-405 | the iteration count stays within the requested iterations; every iteration before the last returned kOk, none was stopped, and the loop ends early only on a stop request or a failed step |
| SparseOptimizerModel.OptimizeOutcome | g2o/core/sparse_optimizer.cpp:345-410 | optimize() is -1 iff ivMap is empty or the algorithm's init fails; otherwise between 0 and the iterations, 0 after a failing last step, and a positive count only when every earlier step returned kOk and no stop was requested |
| SparseOptimizerModel.Iterate | g2o/core/sparse_optimizer.cpp:368-405 | the loop of optimize() runs exactly the iterations the iteration-count specification gives and keeps the last solver result |
| SparseOptimizerModel.TotalDimensionPrefix | g2o/core/sparse_optimizer.cpp:415-425 | the dimensions of a prefix of ivMap add up to at most those of all of it |
| SparseOptimizerModel.UpdateSegments | g2o/core/sparse_optimizer.cpp:412-426 | the update vector is cut into consecutive segments, one per vertex of ivMap, each of that vertex's dimension, which concatenated give the update's prefix |
| SparseOptimizerModel.HasPrior | g2o/core/sparse_optimizer.cpp:136-139 | true iff some unary edge on the vertex has the given dimension |
| SparseOptimizerModel.NoPinnedVertex | g2o/core/sparse_optimizer.cpp:128-142 | true iff no vertex of the given dimension is fixed or carries a unary edge of that dimension |
| SparseOptimizerModel.FirstWithDimension | g2o/core/sparse_optimizer.cpp:113-120 | some registered vertex of the given dimension, or none exactly when no vertex has it |
| SparseOptimizerModel.Reindex | g2o/core/sparse_optimizer.cpp:145-176 | clearIndexMapping then buildIndexMapping: the old mapping's vertices are reset to -1, then the list is numbered; false exactly for an empty list |
| SparseOptimizerModel.FreeEdges | g2o/core/sparse_optimizer.cpp:442-445 | the edges of eset that are not all fixed, each once |
| SparseOptimizerModel.NumberNew | g2o/core/sparse_optimizer.cpp:448-463 | the non-fixed vertices of vset are appended to ivMap with their new positions as Hessian indices, fixed ones get -1, others are untouched |
| SparseOptimizerModel.SparseOptimizer.constructor | g2o/core/sparse_optimizer.cpp:477-482 | an optimizer over an empty graph with no active vertices, edges or index mapping |
| SparseOptimizerModel.SparseOptimizer.BuildIndexMapping | g2o/core/sparse_optimizer.cpp:145-169 | false with an empty ivMap for an empty list; otherwise ivMap is the Hessian order (non-marginalized first, then marginalized, fixed left out), each vertex numbered by its position, fixed vertices -1 |
| SparseOptimizerModel.SparseOptimizer.ClearIndexMapping | g2o/core/sparse_optimizer.cpp:171-176 | every vertex of ivMap gets Hessian index -1, nothing else about the vertices changes |
| SparseOptimizerModel.SparseOptimizer.InitializeOptimization | g2o/core/sparse_optimizer.cpp:184-250 | false with nothing changed for a graph without edges; otherwise the active edges and vertices as selected, sorted, and a fresh index mapping over the active vertices, the result saying whether there is one: ivMap is the Hessian order of the active vertices or empty, fixed active vertices get index -1, a vertex outside the active list gets -1 if the old mapping held it and keeps its index otherwise, and nothing but indices changes |
| SparseOptimizerModel.SparseOptimizer.InitializeOptimizationAtLevel | g2o/core/sparse_optimizer.cpp:178-182 | the same guarantees as InitializeOptimization with vset the set of all vertices: selection, sorting, the Hessian order or an empty ivMap, fixed vertices at -1, the rule for vertices outside the active list, only indices changed |
| SparseOptimizerModel.SparseOptimizer.InitializeOptimizationFromEdges | g2o/core/sparse_optimizer.cpp:252-280 | the active edges are those of eset without undefined vertices, the active vertices their union, both sorted, with a fresh index mapping: ivMap is the Hessian order of the active vertices or empty, fixed active vertices get -1, a vertex outside the active list gets -1 if the old mapping held it and keeps its index otherwise, and nothing but indices changes |
| SparseOptimizerModel.SparseOptimizer.UpdateInitialization | g2o/core/sparse_optimizer.cpp:436-469 | the edges of eset not all fixed are appended to the active edges; the non-fixed vertices of vset are appended to ivMap and the active vertices with the next Hessian indices; fixed ones get -1; the result is the algorithm's updateStructure answer |
| SparseOptimizerModel.SparseOptimizer.FindActiveVertex | g2o/core/sparse_optimizer.cpp:484-491 | a position holding the vertex's id, found whenever the id is active (the list being sorted) |
| SparseOptimizerModel.SparseOptimizer.FindActiveEdge | g2o/core/sparse_optimizer.cpp:493-500 | a position holding the edge, found whenever it is active (the list being sorted by internal id) |
| SparseOptimizerModel.SparseOptimizer.ActiveChi2 | g2o/core/sparse_optimizer.cpp:84-91 | the sum of the active edges' chi2 |
| SparseOptimizerModel.SparseOptimizer.ActiveRobustChi2 | g2o/core/sparse_optimizer.cpp:93-105 | the sum over active edges of rho[0] of the kernel at chi2, or chi2 without a kernel |
| SparseOptimizerModel.SparseOptimizer.Optimize | g2o/core/sparse_optimizer.cpp:345-410 | the result the optimize specification gives for this index mapping |
| SparseOptimizerModel.SparseOptimizer.Update | g2o/core/sparse_optimizer.cpp:412-426 | each vertex of ivMap receives the next segment of the update, of its own dimension |
| SparseOptimizerModel.SparseOptimizer.GaugeFreedom | g2o/core/sparse_optimizer.cpp:123-143 | true iff the graph has vertices and no vertex of the maximum dimension is fixed or has a unary edge of that dimension |
| SparseOptimizerModel.SparseOptimizer.FindGauge | g2o/core/sparse_optimizer.cpp:107-121 | a registered vertex of the maximum dimension, none exactly when every vertex dimension is negative (or there are no vertices) |
| SparseOptimizerModel.SparseOptimizer.RemoveVertex | g2o/core/sparse_optimizer.cpp:542-550 | a vertex with a Hessian index clears the index mapping first; then the graph removes the vertex, its edges detached or removed as `detach` says; the graph's edge counter, parameters, renamed types and action sets and the active lists are not touched |
| SparseOptimizerModel.ActiveEdgesTouch | g2o/core/sparse_optimizer.cpp:201-240 | gathering, vertex by vertex over vset, the active edges that touch it yields exactly the active edges |
| LevenbergModel.GainRatio | g2o/core/optimization_algorithm_levenberg.cpp:113-116 | rho = (currentChi - tempChi) / scale with IEEE signs: positive iff the numerator has the denominator's sign (or the denominator is +0 and the numerator positive), negative iff the opposite, zero iff the numerator is 0 over a non-zero denominator |
| LevenbergModel.GoodStepFactor | g2o/core/optimization_algorithm_levenberg.cpp:118-122 | the factor 1 - (2 rho - 1)^3 clamped to [goodStepLowerScale, goodStepUpperScale] = [1/3, 2/3] |
| LevenbergModel.GoodStepFactorAntitone | g2o/core/optimization_algorithm_levenberg.cpp:118-122 | a larger gain ratio never gives a larger factor; an infinite rho gives the smallest |
| LevenbergModel.SumSquares | g2o/core/optimization_algorithm_levenberg.cpp:155-162 | a sum of squares is non-negative |
| LevenbergModel.ScaleSplits | g2o/core/optimization_algorithm_levenberg.cpp:155-162 | computeScale is lambda times the squared norm of x plus x·b |
| LevenbergModel.PredictedPositive | g2o/core/optimization_algorithm_levenberg.cpp:114-115 | with non-negative lambda and x·b the offset predicted gain is positive, so the offset does make it non-zero |
| LevenbergModel.TrialDamping | g2o/core/optimization_algorithm_levenberg.cpp:118-132 | a kept step multiplies a positive lambda by a factor in [1/3, 2/3], resets nu to 2 and takes the new chi^2; a rejected one multiplies lambda by nu (at least doubling it), doubles nu and keeps estimate and chi^2; lambda > 0 and nu >= 2 are preserved |
| LevenbergModel.KeptDamping | g2o/core/optimization_algorithm_levenberg.cpp:118-126 | a kept step shrinks a positive lambda to between a third and two thirds of it, resets nu to 2 and adopts tempChi |
| LevenbergModel.RejectedDamping | g2o/core/optimization_algorithm_levenberg.cpp:127-131 | a rejected step grows lambda by nu, at least doubling it, doubles nu and restores the estimate and chi^2 |
| LevenbergModel.AcceptedImproves | g2o/core/optimization_algorithm_levenberg.cpp:113-125 | a kept step with a positive predicted gain strictly lowers chi^2 |
| LevenbergModel.FailedSolveRejected | g2o/core/optimization_algorithm_levenberg.cpp:110-118 | a failed solve (tempChi = the maximum double) with a positive predicted gain is never kept, and the estimate is restored |
| LevenbergModel.Trials | g2o/core/optimization_algorithm_levenberg.cpp:88-135 | the do-while loop stops in a state where it would not continue: rho is not negative, lambda overflowed, the budget is spent, or terminate() is set |
| LevenbergModel.TrialsCount | g2o/core/optimization_algorithm_levenberg.cpp:133-135 | the trial count qmax never exceeds maxTrialsAfterFailure when it starts below it, and grows by at most one otherwise (the first pass always runs) |
| LevenbergModel.TrialsDamping | g2o/core/optimization_algorithm_levenberg.cpp:88-135 | lambda stays positive and nu at least 2 through the whole loop |
| LevenbergModel.TrialsNeverWorsen | g2o/core/optimization_algorithm_levenberg.cpp:88-135 | when the predicted gain is always positive, solve never ends with a larger chi^2 than it started with |
| LevenbergModel.OkMeansNoWorseStep | g2o/core/optimization_algorithm_levenberg.cpp:134-140 | kOk with a budget of at least one trial means the last gain ratio is not negative or the optimizer was told to stop |
| LevenbergModel.MaxAbs | g2o/core/optimization_algorithm_levenberg.cpp:145-151 | the largest absolute diagonal entry over all vertices: an upper bound of every entry, attained by one of them or 0 |
| LevenbergModel.MaxAbsOf | g2o/core/optimization_algorithm_levenberg.cpp:149-150 | the largest absolute entry of one diagonal: an upper bound, attained or 0 |
| LevenbergModel.TrialStep | g2o/core/optimization_algorithm_levenberg.cpp:109-132 | one pass of the loop computes exactly the trial the loop specification gives, and keeps the step exactly when rho > 0 and tempChi is finite |
| LevenbergModel.ComputeScale | g2o/core/optimization_algorithm_levenberg.cpp:155-162 | the loop computes the sum of x_j (lambda x_j + b_j) |
| LevenbergModel.Estimates.Push | g2o/core/optimization_algorithm_levenberg.cpp:89 | push saves a copy of the current estimate on the stack |
| LevenbergModel.Estimates.Pop | g2o/core/optimization_algorithm_levenberg.cpp:130 | pop restores the last saved estimate and drops it |
| LevenbergModel.Estimates.DiscardTop | g2o/core/optimization_algorithm_levenberg.cpp:126 | discardTop drops the last saved estimate and keeps the current one |
| LevenbergModel.Estimates.Update | g2o/core/optimization_algorithm_levenberg.cpp:101 | update applies the increment with oplus, leaving the stack alone |
| LevenbergModel.Levenberg.constructor | g2o/core/optimization_algorithm_levenberg.h:77-84 | lambda -1, nu 2, no iterations, maxTrialsAfterFailure 10, initialLambda 0 |
| LevenbergModel.Levenberg.SetMaxTrialsAfterFailure | g2o/core/optimization_algorithm_levenberg.cpp:164-166 | sets the trial budget and nothing else |
| LevenbergModel.Levenberg.SetUserLambdaInit | g2o/core/optimization_algorithm_levenberg.cpp:168-170 | sets the user lambda and nothing else |
| LevenbergModel.Levenberg.ComputeLambdaInit | g2o/core/optimization_algorithm_levenberg.cpp:143-153 | the user lambda when positive, otherwise tau times the largest absolute Hessian diagonal entry |
| LevenbergModel.Levenberg.DampingLoop | g2o/core/optimization_algorithm_levenberg.cpp:85-135 | the loop leaves lambda, nu, qmax and the estimate as the loop specification gives, every push matched by a pop or discardTop |
| LevenbergModel.Levenberg.Solve | g2o/core/optimization_algorithm_levenberg.cpp:48-141 | kFail with nothing changed when buildStructure fails at iteration 0 outside online mode; otherwise the loop from chi^2 of the estimate (lambda from computeLambdaInit and nu = 2 at iteration 0), kTerminate iff qmax reached the budget, rho is 0 or lambda is not finite, kOk otherwise; the stack of saved estimates is as before |
| PcgModel.FirstDiagonal | g2o/solvers/pcg/linear_solver_pcg.hpp:97-103 | the scan of a column stops at the first block whose block row is the column, or at the end: no earlier block is on the diagonal, and the stop position holds the diagonal block when inside |
| PcgModel.ScanColumn | g2o/solvers/pcg/linear_solver_pcg.hpp:93-110 | one column of the extraction loop appends its diagonal block (if any) to diag_ and its inverse to J_, and, when indices are required, the row and column bases and pointers of every block before the diagonal one |
| PcgModel.Scan | g2o/solvers/pcg/linear_solver_pcg.hpp:86-112 | the extraction loop over all columns: diag_ holds the diagonal blocks in column order, J_ their inverses, and indices_ / sparseMat_ gain every block scanned before a diagonal block exactly when indices are required |
| PcgModel.DiagBlocksAll | g2o/solvers/pcg/linear_solver_pcg.hpp:91-103 | when every column has a diagonal block, diag_ has one block per column, the one on the diagonal |
| PcgModel.UpperEntries | g2o/solvers/pcg/linear_solver_pcg.hpp:104-111 | every recorded pointer names a block before its column's diagonal block with indices_ holding its row base and column base; every such block is recorded |
| PcgModel.UpperAboveDiagonal | g2o/solvers/pcg/linear_solver_pcg.hpp:98-107 | in a column sorted by row, every recorded block lies strictly above the diagonal |
| PcgModel.DiagProduct | g2o/solvers/pcg/linear_solver_pcg.hpp:165-185 | multDiag: dest with each diagonal block times the matching segment of src written over that segment |
| PcgModel.DiagProductTiles | g2o/solvers/pcg/linear_solver_pcg.hpp:165-185 | when the blocks tile the columns, each output segment is its block times the input segment and entries past the last block keep their value |
| PcgModel.UpperProduct | g2o/solvers/pcg/linear_solver_pcg.hpp:194-206 | the loop of mult over the upper blocks: for each, dest += A·src and dest += Aᵀ·src at the mirrored offsets |
| PcgModel.UpperProductIsMirrored | g2o/solvers/pcg/linear_solver_pcg.hpp:194-206 | that loop equals adding each upper block and its transpose at the mirrored position, i.e. multiplying by the symmetric matrix the upper blocks stand for |
| PcgModel.Apply | g2o/solvers/pcg/linear_solver_pcg.hpp:187-207 | the result of mult has the vector's length |
| PcgModel.Resolve | g2o/solvers/pcg/linear_solver_pcg.hpp:200-201 | the blocks the stored pointers name, one per pointer |
| PcgModel.Start | g2o/solvers/pcg/linear_solver_pcg.hpp:114-130 | the state before the loop: x and q and s zero, r = b, d = J·r, dn = r·d, no iteration done, all of length n |
| PcgModel.Step | g2o/solvers/pcg/linear_solver_pcg.hpp:144-153 | one iteration keeps the vector lengths and counts one more iteration |
| PcgModel.Run | g2o/solvers/pcg/linear_solver_pcg.hpp:139-154 | the loop never runs past the cap; stopping before the cap means dn <= d0; it does nothing when dn is already at or below d0 |
| PcgModel.ThresholdIsLargest | g2o/solvers/pcg/linear_solver_pcg.hpp:131-135 | the threshold d0 is tolerance·dn, raised to the previous residual when absolute tolerance is on and the residual is positive and larger |
| PcgModel.IterationCap | g2o/solvers/pcg/linear_solver_pcg.hpp:137 | the configured cap when non-negative, the number of rows otherwise |
| PcgModel.DiagonalTiles | g2o/solvers/pcg/linear_solver_pcg.hpp:91-103 | on a block Hessian (square diagonal blocks of the column sizes) the extracted diagonal blocks tile the whole vector |
| PcgModel.InverseTiles | g2o/solvers/pcg/linear_solver_pcg.hpp:101 | inverting square blocks keeps the tiling, so J_ fits multDiag too |
| PcgModel.UpperFitsHessian | g2o/solvers/pcg/linear_solver_pcg.hpp:104-111 | on a block Hessian every recorded upper block fits the vector at its offsets |
| PcgModel.OperatorFits | g2o/solvers/pcg/linear_solver_pcg.hpp:86-130 | after the extraction every product of the loop is well defined |
| PcgModel.ZeroFill | g2o/solvers/pcg/linear_solver_pcg.hpp:118 | xvec.setZero() sets every entry of x to 0 in place |
| PcgModel.AddScaled | g2o/solvers/pcg/linear_solver_pcg.hpp:146 | xvec += a·d in place |
| PcgModel.Begin | g2o/solvers/pcg/linear_solver_pcg.hpp:120-130 | the vectors before the loop are those of the start state |
| PcgModel.LinearSolverPCG.ExtractBlocks | g2o/solvers/pcg/linear_solver_pcg.hpp:86-112 | diag_ and J_ are rebuilt from A; indices_ and sparseMat_ are filled with the upper blocks only when indices_ was empty, and kept otherwise |
| PcgModel.LinearSolverPCG.MultDiag | g2o/solvers/pcg/linear_solver_pcg.hpp:165-185 | the loop of multDiag computes the diagonal product |
| PcgModel.LinearSolverPCG.Mult | g2o/solvers/pcg/linear_solver_pcg.hpp:187-207 | mult computes the diagonal product followed by the upper products |
| PcgModel.LinearSolverPCG.Iterate | g2o/solvers/pcg/linear_solver_pcg.hpp:139-154 | the for loop leaves x and the vectors as the loop specification gives |
| PcgModel.LinearSolverPCG.Iterations | g2o/solvers/pcg/linear_solver_pcg.hpp:114-156 | x and the new residual (half the final dn) are those of the solution specification |
| PcgModel.LinearSolverPCG.Solve | g2o/solvers/pcg/linear_solver_pcg.hpp:83-163 | returns true; the extracted lists describe A; x and residual_ are those of the CG iteration from x = 0 with the threshold and cap above |
| SolverCSparse.Find | g2o/solvers/csparse/solver_csparse.cpp:60-61 | std::map::find: none exactly when no entry has the key, otherwise the solver of an entry with that key |
| SolverCSparse.FactoryKeysDistinct | g2o/solvers/csparse/solver_csparse.cpp:47-57 | the seven factory keys are pairwise distinct, as map keys must be |
| SolverCSparse.FactoryAt | g2o/solvers/csparse/solver_csparse.cpp:47-60 | each factory key finds its own entry |
| SolverCSparse.CreateSolver | g2o/solvers/csparse/solver_csparse.cpp:46-76 | out_of_range iff the name is shorter than 3; an algorithm iff the name from index 3 is a factory key and the first two characters are gn, lm or dl, built from that method and that key's block solver; a null pointer otherwise |
| SolverCSparse.FactoryMatchesKey | g2o/solvers/csparse/solver_csparse.cpp:50-56 | every factory key allocates what its name spells: dynamic sizes for var, P and L for fixP_L, block ordering off exactly for the _scalar keys |
| SolverCSparse.SeparatorIgnored | g2o/solvers/csparse/solver_csparse.cpp:59-63 | the character between the method and the key is never read |
| SolverCSparse.Constructs | g2o/solvers/csparse/solver_csparse.cpp:59-73 | a known method, any separator and a known key build that method's algorithm around that key's block solver |
| SolverCSparse.RegisteredConstruct | g2o/solvers/csparse/solver_csparse.cpp:91-100 | every registered algorithm name constructs the algorithm its description names, with the announced block sizes and block ordering on |
| G2oCommon.FindArguments | g2o/apps/g2o_cli/g2o_common.cpp:88-97 | the values collected are exactly the arguments following each occurrence of the option that is not last, in order; what args held before is dropped |
| G2oCommon.OneValuePerMatch | g2o/apps/g2o_cli/g2o_common.cpp:92-96 | one value is collected per matching position |
| G2oCommon.MatchesAreMatches | g2o/apps/g2o_cli/g2o_common.cpp:92-96 | the matching positions are exactly those holding the option with a value after it |
| G2oCommon.MatchesIncrease | g2o/apps/g2o_cli/g2o_common.cpp:92-96 | matching positions are visited in strictly increasing order |
| G2oCommon.ValueAfterMatch | g2o/apps/g2o_cli/g2o_common.cpp:92-96 | the k-th collected value is the argument right after the k-th match |
| G2oCommon.LastOptionIgnored | g2o/apps/g2o_cli/g2o_common.cpp:93 | an option in the last position collects nothing |
| G2oCommon.ConsumedValueNotSkipped | g2o/apps/g2o_cli/g2o_common.cpp:92-96 | the loop does not skip the value it just collected: an option given twice collects the second occurrence as a value and then the value after it |
| G2oCommon.SearchDirectories | g2o/apps/g2o_cli/g2o_common.cpp:120-123 | the directories searched are the non-empty components of the path split at the separator, in order |
| G2oCommon.NonEmptyKeeps | g2o/apps/g2o_cli/g2o_common.cpp:120-123 | skipping empty components keeps exactly the non-empty ones and loses no characters |
| G2oCommon.DirectoriesSpellPath | g2o/apps/g2o_cli/g2o_common.cpp:120-123 | every searched directory is non-empty and free of the separator, and together they spell the path without its separators |
| G2oCommon.LoadStandard | g2o/apps/g2o_cli/g2o_common.cpp:99-131 | loadStandardTypes / loadStandardSolver: the directories of the path searched in order, then every library named after -typeslib / -solverlib when there are arguments |

## Left out

- `formatString`, `strPrintf`, `strExpandFilename` and `readLine` (g2o/stuff/string_tools.cpp:85-130, 158-167) are left out. They are varargs formatting through `vasprintf`, shell expansion through `wordexp`, and stream input: foreign calls and I/O.
- StringTools.StrToLower, StringTools.StrToUpper: characters are Unicode code points, and the mapping is the "C"-locale one (ASCII letters only). Other locales are not modelled.
- File output is left out. `MatrixStructure::write`, `writeCCSMatrix`, `writeTripletMatrix` and `writeTripletEntries` return the header and the ordered entries they would write. They do not model the stream, its formatting or the `fout.good()` result. `writeVector` (g2o/stuff/sparse_helper.cpp:57-62) only writes a vector to a file and is not modelled.
- Graph loading and saving through streams and the type factory (g2o/core/optimizable_graph.cpp:371-561, 747-804) are left out. Only the choice of what `save` and `saveSubset` write is modelled. The factory's known tags are a parameter of `setRenamedTypesFromString`.
- g2o/core/hyper_graph.cpp is not part of this model. The base `addVertex` is modelled as an insertion into the id map, and the base `addEdge` as an insertion when the edge is new. The base `removeVertex` is modelled after g2o's HyperGraph: with `detach` the vertex's slots in its edges are unset and the edges stay; without it the edges touching the vertex are removed.
- OptimizableGraphModel.OptimizableGraph.RemoveVertex, SparseOptimizerModel.SparseOptimizer.RemoveVertex: the base removal's handling of incident edges and of `detach` comes from hyper_graph.cpp, which is not part of this model; its object-identity check (another vertex object under the same id makes the removal fail) is not modelled, because vertices are records; and the active edge list holds copies of the edge records, so a detached edge's copy there keeps its old slots, where the source shares the edge object.
- OptimizableGraphModel.OptimizableGraph.AddEdge does not model the cache resolution or the Jacobian workspace update. It takes parameter resolution as a property of the edge, and its owner (`graph()`) as an attribute of the edge record.
- `verifyInformationMatrices` (eigen-decomposition) and `computeInitialGuess` (its propagator is not shown) are left out.
- The concrete vertex and edge types are left out. They are geometry over floating point and trigonometry.
- The CSparse back end (Cholesky factorisation) is left out, as is the construction of the algorithm objects by `AllocateSolver`. That function is modelled by the block sizes and ordering flag it is instantiated with.
- OpenMP pragmas and the edge locks are left out; the loops are modelled sequentially. Batch statistics, timing, verbose output and randomness are also left out.
- Plugin loading is left out: `dl_wrapper.cpp`, `getenv` and `dladdr` in g2o_common.cpp. `G2oCommon.LoadStandard` takes the search path and the separator (':' on Unix, ';' on Windows) as parameters. It returns the directories and library names that would be opened, in order.
- solver.h, jacobian_workspace.h, hyper_dijkstra.h, optimization_algorithm_dogleg.h, base_variable_sized_edge.h, parameter.h and eigen_types.h are not part of this model. They contain only declarations, without bodies.
- SparseBlockCCS.SparseBlockMatrixHashMap.AddBlock requires r to be a block row and the block boundaries to be non-decreasing. The source reads `rowBlockIndices[r]` unchecked when it creates a block, so an r outside the rows is undefined behaviour there. `addBlock` never sums values into an existing block; summing is done by block-solver code that is not shown.
- BaseEdgeModel.BaseEdge.SetDimension leaves the entries of the resized information matrix and error unspecified, because Eigen's `resize` leaves them uninitialised.
- RobustKernels.Defined: the kernels' arithmetic is modelled only where it stays within the reals. Left out are kernel widths of 0; a `delta + e` of 0 for Geman-McClure and for DCS; negative Pseudo-Huber, Cauchy, Fair and Tukey inputs e; and a negative Fair width with e >= delta^2, where log1p(-1) or a negative argument gives -infinity or NaN. In the source these give infinities or NaN through the division or the logarithm.
- RobustKernels: `sqrt`, `log`, `log1p` and `exp` are function parameters. They are constrained only by the laws the proofs use, so value bounds that need more (such as log(1 + x) ≤ x for Cauchy and Fair) are not stated.
- SparseOptimizerModel.SparseOptimizer.ClearIndexMapping empties `ivMap_`, whereas g2o/core/sparse_optimizer.cpp:171-176 sets its entries to null and keeps its length. Every caller in that file rebuilds or resets `ivMap_` right afterwards, so the two agree wherever the file uses it.
- SparseOptimizerModel.SparseOptimizer.Optimize takes the optimisation algorithm as parameters: the result of its `init`, its `solve` per iteration and the `terminate()` flag per iteration. `computeActiveErrors`, the `online` flag, verbose output and batch statistics are left out.
- SparseOptimizerModel.SparseOptimizer.UpdateInitialization requires that vset holds no free marginalised vertex, because the source calls `abort()` on one (g2o/core/sparse_optimizer.cpp:458-459). The answer of `updateStructure` is a parameter.
- `SparseOptimizer::push`, `pop` and `discardTop` act on the backups of every active vertex. LevenbergModel.Estimates models them as one stack of estimate vectors.
- LevenbergModel.Levenberg.Solve takes as parameters the result of `buildStructure`, the system (χ² of an estimate, right-hand side, damped solve, ⊕ and the terminate flag) and the Hessian diagonals. `buildSystem`, `setLambda` and `restoreDiagonal` are folded into the damped solve, and `printVerbose` is left out. Overflow to infinity is modelled as a magnitude above the largest finite double. NaN values of λ are not modelled.
- PcgModel: the CG arithmetic is exact. Division is a parameter that is real division for a non-zero divisor; what IEEE gives for a zero divisor is not modelled. Convergence is not modelled.
- PcgModel.LinearSolverPCG.Solve requires every block column to hold a square diagonal block of the column's size (a block Hessian). It also requires stored `indices_` to come from the same block structure; the source trusts its callers for both. linear_solver_pcg.h is not part of this model: the constructor takes the tolerance, the absolute-tolerance flag, the iteration cap and the initial residual as parameters. The verbose residual output and the `iterationsLinearSolver` statistic are left out.
