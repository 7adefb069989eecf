# Verified model of operator fusion, lazy evaluation, image decoding and pool allocation in MNN

This Dafny project models four parts of the repository and proves what they are for.
`dafny verify dfyconfig.toml` checks it.

**Operator fusion** (`codegen/OpFuse.cpp`, `codegen/SourceModule.cpp`). A command list is turned into a
dataflow graph, a post-dominator tree is built with a two-finger search, regions of elementwise commands are
grown from the tree, each region is compiled to one straight-line kernel that takes the root's place, and the
other members are erased. The main theorem is `FusionCorrect.FuseOps`: for every program with one writer per
tensor, and for every initial state, the shortened list gives every tensor that is not interior to a region
the value it had before, if indices rise from members to readers inside each region. Commands, kernels and
graph are in `Commands`, `Kernels`, `CommandGraph` and `FusionGraph`; the tree in `PostDominators`; regions in
`Regions` and `RegionSearch`; the compiler's meaning in `KernelMeaning` and `SingleAssignment`; replacement in
`OpFuse`. Node pointers are positions in the graph, and the infos' command buffers form one list with an index
per command. Commands of one info share an index, and then the code can go wrong:
`FusionTies.FusionRightIffSetsRise` says that fusion is right for all operators and all outcomes of the sort
exactly if indices rise inside every region that has a thread, and `TiedCommands` runs the pass on five
commands for which they do not. A caller can rule this out by giving chained elementwise commands different
infos.

**Lazy expressions** (`express/Expr.cpp`, `express/Utils.cpp`, `express/Executor.cpp`). Expressions form a
graph with back links; reads build caches, write and resize mark them dirty, and computing recomputes only
what is stale. The simple machine is evaluation from scratch (`ExprModel`). Each cache has the sizes that its
session was last prepared for, which only a resize of the cache changes (`ResizeCaches`); an operator that
runs for other sizes may give something else. The main theorem is `ExprRuns.Run`: over every run of creates,
writes, resizes, shape requests, reads, prepared and computed batches, every shape is the one that machine
gives, and so is every value up to which the caller was careful. Careful (`Callers.Careful`) is said in what a
caller knows: before a leaf gets new dimensions, of every group of variables prepared together of which some
depend on the leaf, one of these has been asked for its shape since they last changed, or the group has not
been computed since; and whatever is computed together has a shape. Without that the code answers wrongly:
`StaleSizes.StaleRun` is a run in which two expressions share a cache, one of them is read between two
resizes, and the other then comes out with the size before, because marking stops at what is marked already
(express/Expr.cpp:959-963); and a resize that fails for want of a shape is taken for done
(express/Utils.cpp:283-288). `InferShapes.RightIffExposed` says that caches stay right, for all operators and
all new values of the leaf, exactly if a guard on the marks holds (with `Callers.CarefulIffExposed` in the
caller's terms), and `ResizeCaches.ResizeKeepsSizedIff` when preparing a cache keeps them right.
`ResizeOperators` is `resize` of a variable that is no leaf, which the code lets through. `Run` rests on the
pipeline builder (`CacheBuilder`, `Sessions`), the cache walk (`CacheWalks`, `ComputeCaches`), dirtiness
(`InformDirty`, `InferShapes`) and the state's invariants (`ExprGraphs.ExprGraph.Valid` and `Sound`).
`ExecuteOrder` and `SaveLoad` are the serialiser, `Substitution` is `Expr::replace`. Objects are numbers into
sequences, one per field, kept in a class.

**Image decoding** (`3rd_party/imageHelper/stb_image.h`). `BitStream`, `CanonicalCode` and `InflateSpec` state
RFC 1951; `ZHuffman`, `ZBuf`, `ZInflate` and `ZBlocks` are the decoder, and `ZBlocks.DoZlib` equals the
specification on every input. The specification has two sets of rules: those of the RFC, and those of the
decoder, which reads zero bits past the end of its input and goes on at reserved symbols.
`LenientInflate.RightIffComplete` says exactly when both give the same, and `LenientStreams` has two streams
for which they do not. `PngFilter` states section 9 of the PNG Specification (Second Edition); `PngRows`,
`PngImage`, `PngUnpack`, `PngCreate` and `PngAdam7` reconstruct images in place, interlaced or not, at every
depth, and `PngRoundTrip` proves that every picture comes back from its encoding. `GifRows` and `GifSpec`
state Appendices E and F of GIF89a; `GifDecoder` is the raster decoder. Where the C code and GIF89a differ the
code is followed: new codes are defined past 4096 and the 8193rd is an error, while GIF89a lets a full table
stand.

**Pool allocator** (`3rd_party/rapidjson/allocators.h`). `PoolAllocator` keeps live blocks apart and inside
their chunks, and `Realloc` keeps contents.

Arbitrary outcomes of the outside world (a failing session, fresh memory, the address of a new chunk, the
order of equal sort keys or of a hash table) are parameters or nondeterministic choices, so that the
theorems hold for all of them.

## Model

| member | source | states |
|---|---|---|
| CommandGraph.BuildGraph | codegen/OpFuse.cpp:418-449 | the successor list of i holds each later command once for each of its inputs whose latest writer is i, in command and input order; the predecessor lists match; so edges are exactly the data dependences |
| PostDominators.LCA | codegen/OpFuse.cpp:240-252 | returns a common ancestor of both nodes, or none for the virtual exit; if indices rise along parents it is the nearest one |
| PostDominators.ParentOf | codegen/OpFuse.cpp:468-473 | the parent found for a node is above all its successors, and exactly the nearest such node if indices rise |
| PostDominators.BuildTree | codegen/OpFuse.cpp:464-483 | after the backward pass every node has such a parent, found by folding LCA over its successors in list order; children lists hold each child once and the queue each root once |
| PostDominators.AncestorPostDominates | codegen/OpFuse.cpp:464-483 | every ancestor in the tree lies on all maximal paths from the node, with tied indices too |
| PostDominators.PostDominatorIsAncestor | codegen/OpFuse.cpp:464-483 | conversely, when indices rise along edges, every post-dominator is an ancestor |
| PostDominators.ParentIsImmediatePostDominator | codegen/OpFuse.cpp:464-483 | with rising indices the parent is the immediate post-dominator, and no parent means only the virtual exit |
| PostDominators.ImmediatePostDominatorUnique | codegen/OpFuse.cpp:464-483 | a node has at most one immediate post-dominator |
| Regions.AllPathLegal | codegen/OpFuse.cpp:253-271 | terminates and is true exactly if the start and everything reached from it without passing the root is legal |
| Regions.AllLegalIffReachedLegal | codegen/OpFuse.cpp:253-271 | the recursive meaning of that answer and the one by reachability agree |
| Regions.FuseNode | codegen/OpFuse.cpp:272-305 | the fuse set is exactly the root and what it dominates through legal paths, each node once, root last; the edges are the dominated children that were refused |
| Regions.RegionIsMaximal | codegen/OpFuse.cpp:272-305 | a node is a member exactly if it is the root, or the root dominates it in the tree and everything reached from it without passing the root is legal |
| Regions.RegionClosed | codegen/OpFuse.cpp:272-305 | every successor of a member other than the root is a member |
| Regions.RegionHasSuccessor | codegen/OpFuse.cpp:272-305 | every member other than the root has a successor |
| RegionSearch.MembersSearchRoot | codegen/OpFuse.cpp:484-505 | the members of a region all have the same root of the search: the topmost region they can belong to |
| RegionSearch.EdgesCover | codegen/OpFuse.cpp:497-503 | everything below a region root is a member or below one of the edges handed back, so no node is lost |
| RegionSearch.FusedIffFusable | codegen/OpFuse.cpp:486-495 | the collected set has more than one member iff some node besides the legal root belongs to the region |
| RegionSearch.SearchRegions | codegen/OpFuse.cpp:484-505 | terminates; the fuse sets are exactly the regions with more than one member at the roots the search comes to, none missed, pairwise disjoint |
| Kernels.VarScope.AddVar | codegen/SourceModule.cpp:26-30 | a fresh register number; a variable that is there already keeps its old one |
| Kernels.VarScope.AddInput | codegen/SourceModule.cpp:31-36 | appends the tensor to the inputs and returns its argument number |
| Kernels.VarScope.SetUse | codegen/SourceModule.cpp:48-50 | adds the tensor to the used ones |
| Kernels.VarScope.ComputeOutput | codegen/SourceModule.cpp:51-58 | the outputs are exactly the variables that were never used, each once, in any order |
| Kernels.ReadInputs | codegen/SourceModule.cpp:111-136 | the loop over operands emits the loads, constants and register uses of the scope specification |
| Kernels.BuildKernel | codegen/SourceModule.cpp:91-162 | body, arguments and stores are those of compiling the nodes in the given order |
| KernelMeaning.CompileTables | codegen/SourceModule.cpp:109-143 | after compiling, variables are the tensors read or written, used ones those read, inputs those first read before being written, without constant scalars |
| KernelMeaning.LoadsOnlyOutsideIffProducersFirst | codegen/SourceModule.cpp:109-143 | no tensor that the region writes is loaded exactly if producers come before consumers in the order |
| KernelMeaning.CompileHolds | codegen/SourceModule.cpp:109-143 | running the straight-line code leaves in each register the lane of its tensor in the state that sequential execution ends in |
| SingleAssignment.FinalStateSettled | codegen/OpFuse.cpp:428-449 | with one writer per tensor, the final state satisfies every command’s equation |
| OpFuse.SortByTopo | codegen/SourceModule.cpp:93 | a permutation sorted by index; which of equal indices comes first is left open |
| OpFuse.GenerateOne | codegen/OpFuse.cpp:335-380 | the plugin command runs the kernel compiled from the sorted region, with its inferred inputs and outputs |
| OpFuse.ReplaceMembers | codegen/OpFuse.cpp:381-392 | the kernel stands at the root’s place, the other members are erased, all other commands stay |
| OpFuse.Codegen | codegen/OpFuse.cpp:334-393 | all regions replaced at once: each member as above with the kernel of the original commands |
| OpFuse.EraseNullOps | codegen/OpFuse.cpp:395-403 | drops exactly the erased commands and keeps the order |
| OpFuse.RunWithOps | codegen/OpFuse.cpp:395-403 | dropping them does not change what running the list computes |
| FusionCorrect.SortedProducersFirst | codegen/SourceModule.cpp:93 | if indices rise from members to the members that read them, any sorted order of the region puts producers first |
| FusionCorrect.InteriorReadersInside | codegen/OpFuse.cpp:272-305 | a tensor of a member other than the root is read inside the region only |
| FusionCorrect.KernelStoresRoot | codegen/SourceModule.cpp:51-58 | so the one output inferred for the kernel is the root’s tensor |
| FusionCorrect.KernelLoadsOutside | codegen/SourceModule.cpp:116-132 | and its inputs are exactly the tensors read from outside the region that are not constant scalars |
| FusionCorrect.KernelComputesRoot | codegen/SourceModule.cpp:91-162 | the kernel’s output buffer is what sequential execution leaves in the root’s tensor |
| FusionCorrect.FusionPreservesMeaning | codegen/OpFuse.cpp:334-413 | from any initial state the rewritten list gives every tensor not produced by an erased member the original value |
| FusionCorrect.FuseOps | codegen/OpFuse.cpp:417-516 | the whole pass, for any indices: exact graph, every region of its tree found and replaced by its kernel, no erased command left; the tree is that of the immediate post-dominators if indices rise along all edges; all values of kept tensors are kept if they rise inside each region, or along edges between legal commands |
| FusionTies.ProducersFirstIffRises | codegen/SourceModule.cpp:93 | every order that the sort may give puts producers first exactly if indices rise from members to the members that read them |
| FusionTies.OutcomeDiffers | codegen/OpFuse.cpp:334-413 | where the order has a reader before the member it reads, a state and operators for which the root’s tensor ends up different |
| FusionTies.TieBreaks | codegen/OpFuse.cpp:417-516 | a region with such a tie can be sorted so that fusion changes the meaning for some operators on the same tensors |
| FusionTies.FusionRightIffSetsRise | codegen/OpFuse.cpp:417-516 | fusion keeps the meaning for all operators, all outcomes of the sort and all states exactly if indices rise inside every region whose kernel has a thread |
| TiedCommands.FiveTree | codegen/OpFuse.cpp:464-483 | the tree that the pass builds for five commands of which the first four share an info |
| TiedCommands.TiedPass | codegen/OpFuse.cpp:417-516 | the pass run on these five commands makes one region of them all, which may be sorted with a reader before what it reads, and whose fused list can compute something else |
| CanonicalCode.FitsIffKraft | 3rd_party/imageHelper/stb_image.h:3892-3912 | a length list leaves room at every length exactly if it meets the Kraft inequality |
| CanonicalCode.PrefixFree | 3rd_party/imageHelper/stb_image.h:3892-3912 | at most one symbol’s canonical code matches the stream at any position |
| CanonicalCode.RangeMatches | 3rd_party/imageHelper/stb_image.h:3984-3990 | bits inside the code range of a length are the code of a symbol of that length |
| CanonicalCode.AboveRange | 3rd_party/imageHelper/stb_image.h:3984-3988 | bits at or above the range of a length match no code of that length |
| CanonicalCode.NoShortMatch | 3rd_party/imageHelper/stb_image.h:3984-3988 | if no code of up to l bits matches, the next l bits are at or above that range |
| ZHuffman.CountSizes | 3rd_party/imageHelper/stb_image.h:3893-3900 | counts every length, and fails only if one has more codes than bit patterns |
| ZHuffman.Huffman.AddRange | 3rd_party/imageHelper/stb_image.h:3903-3909 | the tables of one more length, or failure exactly if its codes overflow |
| ZHuffman.Huffman.BuildRanges | 3rd_party/imageHelper/stb_image.h:3901-3913 | first codes, first slots and shifted range ends of all lengths, or failure exactly if the list does not fit |
| ZHuffman.Huffman.FillFast | 3rd_party/imageHelper/stb_image.h:3921-3927 | exactly the fast entries whose low bits are the reversed code now hold the symbol |
| ZHuffman.Huffman.FillSlot | 3rd_party/imageHelper/stb_image.h:3917-3920 | the symbol’s slot in the tables sorted by length holds its length and value, all earlier ones stay |
| ZHuffman.Huffman.Build | 3rd_party/imageHelper/stb_image.h:3887-3932 | accepts exactly the lists that meet the Kraft inequality and then represents their canonical code |
| ZHuffman.FastAtMeans | 3rd_party/imageHelper/stb_image.h:4001-4007 | a nonzero fast entry for the next nine bits names the symbol that matches there; zero means none of up to nine bits does |
| InflateSpec.SymbolIsTheMatch | 3rd_party/imageHelper/stb_image.h:3997-4009 | the symbol that the specification finds is the one that matches, whatever the search order |
| ZBuf.ZBuf.Zget8 | 3rd_party/imageHelper/stb_image.h:3954-3958 | the next input byte, or zero at the end |
| ZBuf.ZBuf.FillBits | 3rd_party/imageHelper/stb_image.h:3960-3967 | more than 24 bits buffered, the position in the stream unchanged |
| ZBuf.ZBuf.Zreceive | 3rd_party/imageHelper/stb_image.h:3969-3977 | the next n bits of the stream, least significant first, and the position n further |
| ZInflate.FirstRangeMatches | 3rd_party/imageHelper/stb_image.h:3985-3994 | the first length whose range end exceeds the next bits is that of the matching symbol, and the table slot is its own |
| ZInflate.FastLookup | 3rd_party/imageHelper/stb_image.h:4001-4002 | the entry names the matching symbol or says that none is short |
| ZInflate.FindLength | 3rd_party/imageHelper/stb_image.h:3985-3987 | the loop stops at the first length whose range end exceeds the bits |
| ZInflate.DecodeSlowpath | 3rd_party/imageHelper/stb_image.h:3979-3995 | returns the one matching symbol and consumes its length, or -1 exactly if no code matches |
| ZInflate.Decode | 3rd_party/imageHelper/stb_image.h:3997-4009 | through either path: the specification’s symbol and its length consumed, or -1 if there is none |
| ZInflate.Zexpand | 3rd_party/imageHelper/stb_image.h:4011-4028 | fails exactly if the buffer may not grow; otherwise room for n more bytes and the same contents |
| ZInflate.CopyBytes | 3rd_party/imageHelper/stb_image.h:4075-4081 | both copy loops give the byte-by-byte copy from dist back, overlaps included |
| ZInflate.RfcLengths | 3rd_party/imageHelper/stb_image.h:4030-4036 | the literal tables are those that section 3.2.5 of RFC 1951 describes: each base starts where the last ends |
| ZInflate.RfcDistances | 3rd_party/imageHelper/stb_image.h:4038-4042 | the same for distances |
| ZInflate.LengthTables | 3rd_party/imageHelper/stb_image.h:4030-4036 | with length 0 and no extra bits for the two symbols that the RFC reserves |
| ZInflate.DistanceTables | 3rd_party/imageHelper/stb_image.h:4038-4042 | with distance 0 for the two that it reserves |
| ZInflate.ReadMatch | 3rd_party/imageHelper/stb_image.h:4063-4069 | length and distance as specified for the decoder, reserved symbols included |
| ZInflate.PutByte | 3rd_party/imageHelper/stb_image.h:4051-4055 | one more byte of output, or failure exactly if there is no room |
| ZInflate.PutMatch | 3rd_party/imageHelper/stb_image.h:4071-4081 | the output extended by the match, or failure exactly if there is no room or distance 0 copies unwritten bytes |
| ZInflate.ParseSymbol | 3rd_party/imageHelper/stb_image.h:4048-4081 | one step of the block: literal, match or end, as specified |
| ZInflate.ParseHuffmanBlock | 3rd_party/imageHelper/stb_image.h:4044-4084 | the whole block: output, position and failure are the specification’s, however far it is followed past the end of the input |
| ZBlocks.AlignToByte | 3rd_party/imageHelper/stb_image.h:4139-4140 | moves to the next byte boundary and keeps whole prefetched bytes |
| ZBlocks.DrainBytes | 3rd_party/imageHelper/stb_image.h:4142-4148 | the buffered bytes in stream order |
| ZBlocks.ReadHeader | 3rd_party/imageHelper/stb_image.h:4139-4151 | the four bytes after the boundary, wherever they were |
| ZBlocks.ParseUncompressedBlock | 3rd_party/imageHelper/stb_image.h:4135-4162 | exactly the stored block of the specification: no prefetched byte is lost, same checks |
| ZBlocks.ReadCodeLengths | 3rd_party/imageHelper/stb_image.h:4099-4103 | three bits per code length code, in the scattered order |
| ZBlocks.ReadRun | 3rd_party/imageHelper/stb_image.h:4112-4127 | repeat codes 16 to 18 extend the list as specified or fail |
| ZBlocks.ReadLengthList | 3rd_party/imageHelper/stb_image.h:4106-4129 | the run-length coded list of exactly ntot lengths, all valid, or failure as specified |
| ZBlocks.ComputeHuffmanCodes | 3rd_party/imageHelper/stb_image.h:4086-4133 | the dynamic header: both alphabets built, or failure exactly if the specification fails |
| ZBlocks.FixedFit | 3rd_party/imageHelper/stb_image.h:4177-4192 | the two fixed length lists meet the Kraft inequality |
| ZBlocks.BuildFixed | 3rd_party/imageHelper/stb_image.h:4221-4224 | so building their tables cannot fail |
| ZBlocks.ParseBlock | 3rd_party/imageHelper/stb_image.h:4216-4229 | dispatch on the block type, as specified, type 3 failing |
| ZBlocks.ParseBlocks | 3rd_party/imageHelper/stb_image.h:4213-4231 | all blocks up to the final one: output and failure are the specification’s |
| ZBlocks.ParseZlibHeader | 3rd_party/imageHelper/stb_image.h:4164-4175 | accepts exactly checked headers without preset dictionary and with method 8 |
| ZBlocks.DoZlib | 3rd_party/imageHelper/stb_image.h:4206-4242 | the whole decoder equals the specification for every input, growing buffer or not, however far it is followed past the end of the input |
| LenientInflate.RightIffComplete | 3rd_party/imageHelper/stb_image.h:3954-4084 | what the decoder gives is what RFC 1951 gives exactly if no reserved symbol is met and no bit past the end is used; it accepts all that the RFC accepts |
| LenientInflate.FollowedFurther | 3rd_party/imageHelper/stb_image.h:3954-3967 | once the decoder has come to an end, reading on past the end of the input would change nothing |
| LenientStreams.FixedCode | 3rd_party/imageHelper/stb_image.h:4177-4192 | the codes of the fixed literal alphabet, as section 3.2.6 of RFC 1951 lists them |
| LenientStreams.TruncatedIsAccepted | 3rd_party/imageHelper/stb_image.h:3954-3967 | a one-byte stream that ends inside a symbol is accepted |
| LenientStreams.ReservedIsAccepted | 3rd_party/imageHelper/stb_image.h:4063-4064 | a stream with length symbol 286 is accepted |
| GifRows.RowOrderIsBijection | 3rd_party/imageHelper/stb_image.h:6308-6317 | interlaced or not, the row order holds every row of the frame exactly once and no other |
| GifSpec.WidthSuffices | 3rd_party/imageHelper/stb_image.h:6392-6395 | in every table that decoding any stream comes to, codes are wide enough for every code defined, up to twelve bits, exactly for code sizes from two on |
| GifDecoder.AddEntry | 3rd_party/imageHelper/stb_image.h:6384-6386 | a new entry with an old code as prefix stands for the old string and one more byte, and its prefix is smaller |
| GifDecoder.Gif.constructor | 3rd_party/imageHelper/stb_image.h:6486-6509 | a frame’s rectangle and interlace flag set the cursor to the first row of the order, or past the end for an empty rectangle |
| GifDecoder.Gif.NextRow | 3rd_party/imageHelper/stb_image.h:6308-6317 | the step and parse variables name the next row of the order, or lie past the end after the last |
| GifDecoder.Gif.OutPixel | 3rd_party/imageHelper/stb_image.h:6293-6317 | one pixel drawn at its place in the order, marked in the history, nothing else changed; none after the last |
| GifDecoder.Gif.OutGifCode | 3rd_party/imageHelper/stb_image.h:6283-6318 | the recursion terminates and draws exactly the string of the code |
| GifDecoder.Gif.InitCodes | 3rd_party/imageHelper/stb_image.h:6336-6340 | the roots represent one-byte strings |
| GifDecoder.Gif.Define | 3rd_party/imageHelper/stb_image.h:6379-6386 | the entry defined stands for the old string and the first byte of the new one, the code being defined included |
| GifDecoder.Gif.EmitCode | 3rd_party/imageHelper/stb_image.h:6378-6397 | a code that stands for a string: dictionary, drawing and code width as in the specification |
| GifDecoder.Gif.TakeGifCode | 3rd_party/imageHelper/stb_image.h:6362-6400 | every code, the errors included, does what the specification says |
| GifDecoder.Gif.FillBits | 3rd_party/imageHelper/stb_image.h:6348-6356 | one more payload byte across sub-block borders, or the end of the chain |
| GifDecoder.Gif.SkipChain | 3rd_party/imageHelper/stb_image.h:6369-6371 | the position after the terminating sub-block |
| GifDecoder.Gif.DecodeCodes | 3rd_party/imageHelper/stb_image.h:6346-6402 | from the first code to the end: draws what the codes stand for or fails as specified |
| GifDecoder.Gif.ProcessGifRaster | 3rd_party/imageHelper/stb_image.h:6320-6403 | the whole raster draws exactly the indices that Appendix F gives, or fails, and ends after the block chain |
| PngFilter.ReconInverts | 3rd_party/imageHelper/stb_image.h:4474-4507 | reconstructing a filtered row gives the row, for every filter type and pixel size |
| PngFilter.FilteredInverts | 3rd_party/imageHelper/stb_image.h:4474-4507 | filtering a reconstructed row gives the filtered bytes, so reconstruction is injective |
| PngFilter.ImageRoundTrip | 3rd_party/imageHelper/stb_image.h:4422-4518 | the same for whole images with any filter per row |
| PngFilter.Paeth | 3rd_party/imageHelper/stb_image.h:4382-4391 | the chosen neighbour is one of the three and nearest to a + b - c |
| PngRows.CodesMean | 3rd_party/imageHelper/stb_image.h:4361-4380 | the seven filter codes mean the five types; those of the first row never read the prior row and act as if it were zero |
| PngRows.FirstPixel | 3rd_party/imageHelper/stb_image.h:4441-4452 | the first pixel’s bytes are reconstructed |
| PngRows.FlatRest | 3rd_party/imageHelper/stb_image.h:4474-4491 | the rest of a row without alpha |
| PngRows.UnfilterFlat | 3rd_party/imageHelper/stb_image.h:4441-4491 | a row in place: its bytes are the reconstruction, everything else in the buffer is as before |
| PngRows.NextPixel | 3rd_party/imageHelper/stb_image.h:4496-4506 | a pixel’s bytes from neighbours that are a whole pixel with alpha away |
| PngRows.AlphaPixels | 3rd_party/imageHelper/stb_image.h:4454-4507 | all pixels of a row with one alpha byte set, nothing outside the row changed |
| PngRows.LowAlpha | 3rd_party/imageHelper/stb_image.h:4509-4516 | the second alpha bytes of 16-bit rows, the pixels untouched |
| PngRows.UnfilterAlpha | 3rd_party/imageHelper/stb_image.h:4492-4517 | unfiltering with alpha inserted equals unfiltering and then inserting it |
| PngImage.UnfilterRow | 3rd_party/imageHelper/stb_image.h:4441-4517 | either path makes the row the reconstruction of its filtered bytes and the row before |
| PngImage.UnfilterRows | 3rd_party/imageHelper/stb_image.h:4422-4518 | every row, or failure exactly if a filter type is above four |
| PngUnpack.UnpackInvertsPack | 3rd_party/imageHelper/stb_image.h:4537-4571 | every sample of a packed byte is found again, leftmost in the high bits |
| PngUnpack.ReadsStayAhead | 3rd_party/imageHelper/stb_image.h:4523-4571 | no packed byte is overwritten before its last sample has been read |
| PngUnpack.Unpack | 3rd_party/imageHelper/stb_image.h:4537-4571 | the first x samples of the row, scaled, in place |
| PngUnpack.InsertAlpha | 3rd_party/imageHelper/stb_image.h:4572-4590 | alpha inserted in place behind grey or three colours, from the right without losing a value |
| PngUnpack.ExpandRows | 3rd_party/imageHelper/stb_image.h:4523-4591 | all rows of packed samples become pixels |
| PngCreate.LayoutFits | 3rd_party/imageHelper/stb_image.h:4398-4415 | the width formula is the row’s size in bytes for every depth, and rows fit their stride |
| PngCreate.CreatePngImageRaw | 3rd_party/imageHelper/stb_image.h:4396-4606 | succeeds exactly if enough data with known filter types is there, and then every pixel is in place, for any number of channels at every depth |
| PngCreate.FilteredImageDecodes | 3rd_party/imageHelper/stb_image.h:4396-4606 | an image filtered per section 9 of the PNG specification is accepted and gives its own rows back |
| PngAdam7.PassOfIsPattern | 3rd_party/imageHelper/stb_image.h:4620-4623 | the passes are those of the specification’s 8 by 8 pattern |
| PngAdam7.EachPixelOnce | 3rd_party/imageHelper/stb_image.h:4619-4641 | for every width and height, pixels of the image and pixels of the passes correspond one to one |
| PngAdam7.CopyPixel | 3rd_party/imageHelper/stb_image.h:4638-4639 | one pixel’s bytes copied, nothing else changed |
| PngAdam7.ScatterPass | 3rd_party/imageHelper/stb_image.h:4634-4641 | after a pass all its pixels are in place and those of earlier passes still are |
| PngAdam7.CreatePngImage | 3rd_party/imageHelper/stb_image.h:4608-4650 | succeeds exactly if every pass that is not empty does, each from where the last one’s data ended; every pixel is that of its pass |
| PngRoundTrip.PackedRowSamples | 3rd_party/imageHelper/stb_image.h:4523-4571 | samples packed leftmost first are found again by unpacking |
| PngRoundTrip.LinePixelShown | 3rd_party/imageHelper/stb_image.h:4396-4606 | a decoded row whose bytes encode a line of pixels shows each of them: scaled or as it is, with opaque alpha if that was asked for |
| PngRoundTrip.PlainRoundTrip | 3rd_party/imageHelper/stb_image.h:4396-4606 | any picture of any depth, encoded with any filters, is accepted and decoded to itself |
| PngRoundTrip.InterlacedRoundTrip | 3rd_party/imageHelper/stb_image.h:4608-4650 | the seven filtered reduced images of any picture, one after the other, are accepted and give its pixels back |
| ExprModel.DenUnaffected | express/Expr.cpp:845-873 | changing a leaf changes nothing that does not depend on it |
| ExprModel.ClosedCoversDependents | express/Expr.cpp:936-958 | a set closed under consumers that holds those of a leaf holds everything that depends on it |
| Sessions.FetchIsDen | express/Executor.cpp:550-568 | a resolved pipeline input yields the value of the variable it stands for, values and dimensions alike |
| Sessions.RunHoldsAll | express/Executor.cpp:543-587 | after the whole pipeline every expression placed in it is stored at its offset |
| Sessions.SizedRunIsDen | source/core/Session.cpp:237-249 | a session prepared for the right sizes and run on the right inputs computes what its expressions denote |
| Sessions.SessionOkPlaced | express/Executor.cpp:583-587 | placing expressions that had no cache invalidates no older pipeline |
| ExprCreate.AddLinks | express/Expr.cpp:126-146 | each consumer list is extended by the new expression once per input position, and by nothing else |
| ExprCreate.CreateLeaf | express/Expr.cpp:157-203 | a new leaf, unwritten if no data is given; everything cached or inferred stays valid |
| ExprCreate.CreateExpr | express/Expr.cpp:204-227 | a new operator expression, registered with its inputs; everything cached or inferred stays valid |
| CacheBuilder.ScanInputs | express/Executor.cpp:488-518 | notes the caches and INPUT leaves read, and stops at the first input that must be emitted first |
| CacheBuilder.ResolveInputs | express/Executor.cpp:550-568 | each input becomes a leaf’s tensor, a cached tensor or an output of an earlier entry |
| CacheBuilder.BuildPipeline | express/Executor.cpp:487-570 | terminates; entries take inputs from earlier entries, leaves or caches, and every target has an entry at its recorded offset, also one emitted twice |
| CacheBuilder.MakeCache | express/Executor.cpp:463-601 | the targets without operator are skipped, all others get the new cache; the state stays valid |
| ComputeCaches.Check | express/Utils.cpp:227-241 | the check pass terminates although it marks nothing as visited, and succeeds exactly if every INPUT leaf below is written |
| ResizeCaches.Resize | express/Utils.cpp:290-328 | goes through the marked caches below and prepares their sessions; all caches stay sized or marked exactly if everything placed in those that lose their mark has a shape |
| ResizeCaches.SizeSession | source/core/Session.cpp:266-327 | sizes each entry by the dimensions its inputs have now, and stops at the first that cannot be sized |
| ResizeCaches.ResizeImpl | express/Utils.cpp:283-288 | resizes one cache and drops its mark, also when the resize fails |
| ResizeCaches.ResizeKeepsSizedIff | express/Utils.cpp:283-288 | which keeps all caches sized or marked exactly if everything placed in this one has a shape |
| Sessions.RunEntry | express/Utils.cpp:268-274 | an operator’s outputs are stored, earlier ones kept |
| ComputeCaches.RunSession | express/Utils.cpp:268-278 | runs every operator for the sizes it was last prepared for, on what the inputs hold; a failing run may leave anything |
| ComputeCaches.ExecutedHolds | express/Utils.cpp:268-278 | a run whose sizes are right and whose inputs are up to date stores the value from scratch of everything placed in the cache |
| ComputeCaches.Compute | express/Utils.cpp:215-282 | terminates; stops unchanged exactly if an INPUT leaf below is unwritten; runs only stale caches, each once, after what they read; leaves the target clean on success; clean caches stay right exactly if everything in the caches that lost their mark has a shape |
| InformDirty.VisitOutputs | express/Expr.cpp:845-869 | visits every consumer not visited yet, transitively, and marks exactly their caches |
| InformDirty.VisitedIffDepends | express/Expr.cpp:845-873 | what one visit from a leaf reaches is exactly what depends on it |
| InformDirty.Inform | express/Expr.cpp:845-873 | exactly the caches that hold something depending on the leaf become dirty; all visited flags are cleared |
| InformDirty.Write | express/Expr.cpp:908-918 | after a write every clean cache still holds values from scratch; refuses operator expressions |
| InferShapes.RequireInfo | express/Expr.cpp:308-364 | succeeds exactly if shape inference from scratch does, and records its result |
| InferShapes.SetInfoDirty | express/Expr.cpp:959-975 | marks expression and cache, or stops if it is dirty and valid already |
| InferShapes.MarkOutputs | express/Expr.cpp:936-958 | marks everything below, not going on from what was marked before |
| InferShapes.CleanIsUnaffected | express/Expr.cpp:959-962 | although the walk stops early, what is clean afterwards does not depend on the resized leaf |
| InferShapes.WalkKeepsInfos | express/Expr.cpp:959-975 | so recorded shapes that still count are those of the new dimensions, and invalid expressions still have none |
| InferShapes.Resize | express/Expr.cpp:748-782 | for any leaf: the same dimensions change nothing; others mark exactly the expressions that a walk over unmarked dependents reaches, and exactly their caches; caches stay right, whatever the operators are and whatever the leaf gets, exactly if every cache with a dependent is marked already or will be found |
| InferShapes.RightIffExposed | express/Expr.cpp:959-975 | the last: an iff over all operators for which caches are right now, and all values of the leaf |
| InferShapes.UnexposedGoesWrong | express/Expr.cpp:959-975 | otherwise there are operators and a shape for the leaf such that an unmarked cache is prepared for outdated sizes, and every run of it, whatever it reads, gives a dependent another value than the one from scratch |
| SpreadingShapes.ReachesDependents | express/Expr.cpp:308-364 | with operators that pass one new shape on, a leaf’s shape gets to everything that depends on it |
| SpreadingShapes.StaleRunIsWrong | source/core/Session.cpp:237-249 | a session prepared for the sizes before gives each of its dependents’ outputs another value than the one from scratch |
| ResizeOperators.Resize | express/Expr.cpp:748-782 | for a variable that an operator computes, which the type test lets through: the dimensions are recorded as its shape; the state stays valid exactly if inference would give them; caches stay right in any case |
| ResizeOperators.RightIffInferred | express/Expr.cpp:748-782 | recorded shapes stay right exactly if what the operator reads has known shapes and inference gives the new dimensions |
| ResizeOperators.KnownShapeGoesWrong | express/Expr.cpp:748-782 | so where the shape was known, other dimensions always make it wrong |
| ExprRead.ReadyCovers | express/Utils.cpp:227-241 | if the check passes for a cache, no INPUT leaf that its expressions depend on is unwritten |
| ExprRead.GetInfo | express/Expr.cpp:737-746 | the shape from scratch, or none exactly if it cannot be inferred |
| ExprRead.MapOutput | express/Utils.cpp:170-188 | what the cache has stored, and the value from scratch if the cache is clean and right |
| ExprRead.Read | express/Expr.cpp:797-842 | if caches were right and everything that is computed has a shape, a value read is the one from scratch; with nothing unwritten and no failing session one is returned exactly if the shape can be inferred; otherwise it is what a run at the sizes last prepared for stores |
| Callers.CarefulIsExposed | express/Expr.cpp:959-975 | a resize is guarded if of every group with dependents one was asked for its shape since it last changed, or the group was not computed since |
| Callers.CarefulIffExposed | express/Expr.cpp:959-975 | and only if, as long as no request for a shape has failed and no computation has stopped or failed halfway |
| Callers.CarefulIsSafe | express/Utils.cpp:283-288 | no resize can fail if every variable that a read may involve has a shape |
| ExprRuns.PrepareCompute | express/Expr.cpp:874-894 | one cache for all variables without one; caches stay right |
| ExprRuns.ComputeVars | express/Expr.cpp:896-906 | for a careful caller caches stay right and, with nothing missing and no failing session, those of the variables end up to date |
| ExprRuns.Serve | express/Expr.cpp:737-918 | each request does to leaves and groups what the machine without caches does; to a careful caller it answers as that machine |
| ExprRuns.Run | express/Expr.cpp:737-975 | in every run of creates, writes, resizes, shape requests, reads and computes, every shape is right, and so is every value up to which the caller was careful |
| StaleSizes.ResizeTwice | express/Expr.cpp:959-963 | where a dependent waits for its shape in a cache that was resized for another’s sake, the guard fails and the cache stays unmarked |
| StaleSizes.StaleRun | express/Expr.cpp:737-975 | so a run in which a value read has the size before; the caller was not careful |
| ExecuteOrder.SortedIsClosed | express/Expr.cpp:1357-1379 | a list with producers first holds everything its elements depend on |
| ExecuteOrder.GetExecuteOrder | express/Expr.cpp:1335-1384 | terminates; each expression that the outputs need exactly once, producers first, all visited flags cleared |
| SaveLoad.Save | express/Expr.cpp:1131-1224 | records in that order, output numbers consecutive, input numbers those of earlier outputs |
| SaveLoad.Load | express/Expr.cpp:1022-1060 | loading a saved net copies operators, inputs, constants and shapes, and variable t is tensor t |
| SaveLoad.RoundTrip | express/Expr.cpp:1022-1224 | saving and loading gives an isomorphic graph and leaves the saved one as it was |
| SaveLoad.CopyMeansTheSame | express/Expr.cpp:1022-1224 | copies mean what the originals mean once INPUT leaves hold the same |
| Substitution.EvalIsDen | express/Expr.cpp:503-569 | on graphs numbered in creation order the ranked meaning is the value from scratch |
| Substitution.ReplacedIsRanked | express/Expr.cpp:503-569 | the graph stays acyclic if the new expression does not depend on the old one |
| Substitution.ReplaceIsSubstitution | express/Expr.cpp:544-552 | every expression then means what it meant with the new one in the old one’s place |
| Substitution.EvalUntouched | express/Expr.cpp:544-552 | what did not depend on the old one means what it meant |
| Substitution.KeptStaysRight | express/Expr.cpp:553-568 | values in caches that replacing keeps are still those from scratch; the replaced expression shares those of the new one |
| Substitution.Unlink | express/Expr.cpp:507-517 | the old expression leaves all consumer lists, nobody else does |
| Substitution.Relink | express/Expr.cpp:518-543 | it enters those of its new inputs, in a free slot or at the end |
| Substitution.RewiredGraph.VisitOutputs | express/Expr.cpp:553-568 | every transitive consumer is visited and loses its cache and shape; reset slots are erased, consumers kept |
| Substitution.RewiredGraph.Replace | express/Expr.cpp:503-569 | the whole operation: acyclic, consumer lists exact, old contents replaced, exactly the dependents lose cache and shape, flags cleared |
| PoolAllocator.SizeWithinCapacity | 3rd_party/rapidjson/allocators.h:171-186 | the sizes in use never exceed the capacities |
| PoolAllocator.CutBlock | 3rd_party/rapidjson/allocators.h:189-202 | cutting a block from the head keeps live blocks inside chunks and apart |
| PoolAllocator.LastIsExact | 3rd_party/rapidjson/allocators.h:218-225 | a live block whose given size ends where the head’s used part ends is the last one, with exactly that size |
| PoolAllocator.MemoryPoolAllocator.AddChunk | 3rd_party/rapidjson/allocators.h:250-263 | a new head, the old list behind it, or no change |
| PoolAllocator.MemoryPoolAllocator.Malloc | 3rd_party/rapidjson/allocators.h:189-202 | a block clear of all live ones, cut from the head iff it has room and else from a new chunk; none iff size zero or no memory |
| PoolAllocator.MemoryPoolAllocator.GrowInPlace | 3rd_party/rapidjson/allocators.h:218-225 | the last block grows iff its chunk has room; nothing else changes |
| PoolAllocator.MemoryPoolAllocator.Realloc | 3rd_party/rapidjson/allocators.h:204-235 | the result starts with the old contents, no byte of any live block changes, blocks stay apart |
| PoolAllocator.MemoryPoolAllocator.Clear | 3rd_party/rapidjson/allocators.h:158-166 | only the user’s buffer is left, empty, and no block is live |
| PoolAllocator.MemoryPoolAllocator.Size | 3rd_party/rapidjson/allocators.h:181-186 | the sum over the list, at most the capacity |
| PoolAllocator.MemoryPoolAllocator.Capacity | 3rd_party/rapidjson/allocators.h:171-176 | the sum over the list |

## Left out

- FusionCorrect.FuseOps: assumes one writer per tensor and operands as large as the output or of one element; interior tensors are not read after the pass.
- FusionTies.FusionRightIffSetsRise: is about all orders that a sort may give equal indices, since which one std::sort gives is not specified.
- Regions.FuseNode: the rule for a second Raster and the legality test for CUDA; for OpenCL and Metal no Raster is legal. Whether a tensor fits an OpenCL image is an opaque flag of its command.
- Kernels.BuildKernel: emits instructions, not text; kernel names, the sharing of equal kernels, vectorisation flags and the vectorised target code are not modelled.
- `mergeConvolutionAndPrelu` and the erasure from the infos' cache buffers.
- ZBlocks.DoZlib: a run is followed any given number of bits past the end of the input, where the C code may go on for ever; it ends where distance 0 copies bytes that nothing has written, whose values C leaves open; the output buffer must not start empty, since doubling would not end.
- ZHuffman.Huffman.Build: the tables are sequences that the class reassigns, not arrays; reversing bits is modelled by its meaning, not by masks and shifts; entries are unbounded integers, shown to fit their tables.
- ZBuf.ZBuf.Zreceive: the bit buffer is an unbounded integer with at most 32 valid bits.
- GifDecoder.Gif.ProcessGifRaster: colour tables, extensions, disposal, background filling and the descriptor's bounds check come before it; dictionary entries are a sequence the class reassigns.
- PngCreate.CreatePngImageRaw: compares 16-bit samples before the final byte-order pass; the debug assertion that packed rows are no longer than the image is wide, which fails for 4-bit samples of three channels or more, is not modelled, and decoding goes on as in a release build; the unrolled unpacking loops are one loop; size overflow checks and allocation failure are left out.
- PngAdam7.CreatePngImage: the palette, transparency and colour conversion after it.
- JPEG, HDR, PSD, PIC, TGA, BMP and PNM decoding.
- ExprRuns.Run: a careful caller's notes do not tell failed requests for shapes and computations that stop or fail halfway from others, so that the guard may hold where they say it may not; operators need the contents of all inputs and shapes need none; expressions are not destroyed; lazy content decomposition, compute-once mode and eager mode are off; operators and shape inference are opaque total functions of their inputs.
- ComputeCaches.RunSession: a session runs its operators in pipeline order on whole values; backends, memory plans and debug callbacks are not modelled.
- ResizeCaches.SizeSession: fails only where a shape cannot be inferred, not for want of memory or of a backend's support.
- ComputeCaches.Compute: a cache's inputs are visited in insertion order, where a set of pointers has address order; nothing proved depends on it. The recovery from a failing resize is shown never to be reached, since a failing resize reports success.
- InferShapes.Resize: leaves with memory of their own; other variables are in ResizeOperators, which is not among the requests of a run.
- InformDirty.VisitOutputs: the inner loop over input positions is one test, since the visitor does not look at the position here.
- ExprRead.Read: device memory, quantised copies and host pointers.
- SaveLoad.Load: nets written by saving, without null inputs, names, static tensor descriptions and constants kept outside the file.
- Substitution.RewiredGraph.Replace: is not among the requests of a run: kept caches stay right, but nothing is said about further calls while both expressions share what is inside them; a weak reference that expired and a slot that was reset are the same.
- PoolAllocator.MemoryPoolAllocator.Realloc: the size given for a block must not exceed what it has; wrap-around of sizes, ownership of the base allocator and the system's free list are left out.
- half.hpp, the Winograd generators, the operator constructors and the rapidjson streams, which would add only easy members.
