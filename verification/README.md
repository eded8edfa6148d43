# rezanour/downloads cores in Dafny

This project models four self-contained pieces of the repository and proves their properties:

- **rzlib**: the MSB-first bit reader `bitstream` over fixed-width blocks, with its byte-swap and mask policies (`rzlib_bitstream.h`). Also the Huffman encoder and decoder (`rzlib_huffman.h`).
- **Sample2D physics**: the small vector and matrix algebra, `AABB`, shapes, bodies and contact records. It also covers the Box2D-Lite style narrow phase, the contact manifold and its impulse solver, and the world's manifold map and step. Floats are modelled as `real`. `sqrt` and the rotation matrices are inputs.
- **Sample2D sprite batches**: `SpriteBatch` (pixel coordinates) and `SpriteBatch2` (world coordinates). Begin/Draw/End is a state machine. The Direct3D upload, bind and draw calls become a list of abstract events.
- **CPURaytracer**: the deterministic parts of `Raytracer.cpp`. These are:
  - tile job generation and clipping;
  - the job counter shared by the worker threads, sequentialised as claim/complete steps;
  - the test scene's vertex layout and surface properties;
  - the nearest-hit selection of `TraceRay`;
  - the 0xAARRGGBB colour packing and the texel decode.

Each module is a flat `.dfy` file. Functions and methods model the source operations. Lemmas relate each operation to a partner: an inverse, an invariant it keeps, or an independent reference definition.

## Model

| member | source | states |
|---|---|---|
| BitStream.PromotedWidth | rzlib/rzlib/rzlib_bitstream.h:88-101 | the width a block is shifted in is at least 32 bits (`int` promotion) and at least the block width |
| BitStream.ReverseBytesReverses | rzlib/rzlib/rzlib_bitstream.h:20-37 | `big_endian_byte_swap` stays within the block's bytes, and its in-memory bytes are the original's in reverse order |
| BitStream.ReverseBytesInvolution | rzlib/rzlib/rzlib_bitstream.h:20-37 | byte-swapping a value twice gives it back |
| BitStream.SwapBlockInvolution | rzlib/rzlib/rzlib_bitstream.h:9-37 | both swap policies keep a block in range, and applying either one twice is the identity (`no_byte_swap` changes nothing) |
| BitStream.ApplyMask | rzlib/rzlib/rzlib_bitstream.h:39-61 | `bit_masking` leaves exactly the low n bits, below 2^n; `no_masking` returns its argument; neither ever increases the value |
| BitStream.MaskKeepsLowBits | rzlib/rzlib/rzlib_bitstream.h:39-104 | neither mask policy disturbs the n bits being read |
| BitStream.StreamBits | rzlib/rzlib/rzlib_bitstream.h:67-102 | the stream the reader walks is the swapped blocks laid end to end, each most significant bit first, one block width per block |
| BitStream.StreamBitsBlock | rzlib/rzlib/rzlib_bitstream.h:67-102 | block i of the source occupies bits i·bpb up to (i+1)·bpb of the stream, spelling its swapped value |
| BitStream.Open | rzlib/rzlib/rzlib_bitstream.h:67-73 | the constructor needs at least one block; it starts at block 0 with the swapped block 0 loaded and nothing consumed, in a valid state |
| BitStream.ToResult | rzlib/rzlib/rzlib_bitstream.h:88-101 | storing into the unsigned result type keeps the value below 2^(result width) |
| BitStream.ReadBits | rzlib/rzlib/rzlib_bitstream.h:75-107 | `read_bits` as written: it reports the stream empty exactly when the cursor is at `num_blocks`; otherwise it consumes exactly n bits, stays in the same block when more than n bits remain and moves one block on otherwise (also when exactly n remain), and keeps the state valid |
| BitStream.ConsumedAfter | rzlib/rzlib/rzlib_bitstream.h:89-100 | both branches' updates of the cursor and the remaining count advance the consumed-bit count block·bpb + (bpb − remaining) by exactly n |
| BitStream.ReadInsideBlockWindow | rzlib/rzlib/rzlib_bitstream.h:86-90 | inside a block, `current >> (remaining − n)` has the next n stream bits as its low n bits |
| BitStream.AcrossWindowAt | rzlib/rzlib/rzlib_bitstream.h:91-102 | across a block boundary, the OR of `current << k` and `next >> (bpb − k)` spells the stream from the first unread bit of the current block |
| BitStream.ReadAcrossBlockWindow | rzlib/rzlib/rzlib_bitstream.h:91-102 | the boundary branch's combined value has the next n stream bits as its low n bits |
| BitStream.ReadBitsWindow | rzlib/rzlib/rzlib_bitstream.h:75-107 | when n fits the promoted shift width, the low n bits of every result are the next n bits of the stream (MSB-first order) |
| BitStream.ReadBitsMasked | rzlib/rzlib/rzlib_bitstream.h:51-104 | under `bit_masking` the result is exactly the next n bits of the stream |
| BitStream.ReadBitsUnmaskedKeepsPrefix | rzlib/rzlib/rzlib_bitstream.h:40-90 | under `no_masking`, a read inside a block also returns the bits of that block read before it: the value spells the block from its start to the end of the window |
| BitStream.ReadBitsChecked | rzlib/rzlib/rzlib_bitstream.h:75-107 | the corrected reader fails exactly when the stream is empty or fewer than n bits are left; otherwise it consumes exactly n bits and keeps the state valid |
| BitStream.ReadBitsCheckedAgrees | rzlib/rzlib/rzlib_bitstream.h:75-107 | wherever the reader as written stays inside the block array, the corrected reader returns the same value and state |
| BitStream.ReadBitsCheckedWindow | rzlib/rzlib/rzlib_bitstream.h:75-107 | every successful corrected read returns the next n stream bits in its low n bits |
| BitStream.ReadBitsCheckedMasked | rzlib/rzlib/rzlib_bitstream.h:51-107 | under `bit_masking` the corrected reader succeeds iff n bits are left, and then returns exactly those bits |
| BitStream.SampleReadsPastEnd | rzlib/rzlib_test/main.cpp:10-17 | the sample program's reader (two `uint16_t` blocks, big-endian swap, masking) returns 0x3412 first; its second 16-bit read already loads the block after the last one |
| BitStream.SampleReadsChecked | rzlib/rzlib_test/main.cpp:10-17 | the corrected reader returns 0x3412, then 0x7856, then reports the stream empty |
| BitStream.BoundaryShiftUndefinedForWideBlocks | rzlib/rzlib/rzlib_bitstream.h:93-101 | for 32- and 64-bit blocks, a read ending exactly at a block end shifts the newly loaded block by its full width, which is undefined; the corrected reader performs no such shift |
| BitStream.WideFourthByte | rzlib/rzlib/rzlib_bitstream.h:93-101 | a concrete 32-bit stream: the read of its fourth byte is undefined as written, and the corrected reader returns 0xDD and moves to block 1 |
| BitStream.WholeBlockRead | rzlib/rzlib/rzlib_bitstream.h:91-102 | a whole-block read from a block boundary returns that block, swapped, and moves to the next block |
| BitStream.BlockStartRead | rzlib/rzlib/rzlib_bitstream.h:91-102 | reading one block width at the start of block b returns the swapped block b and moves to the start of block b + 1 |
| BitStream.ReadAllBlocks | rzlib/rzlib_test/main.cpp:14-17 | the sample loop, run on the corrected reader: reading one block width until the stream is empty yields every block, swapped, in order |
| HuffmanTree.SizeOfLeaves | rzlib/rzlib/rzlib_huffman.h:53-76 | a code tree with k symbols takes 2k − 1 table entries (k − 1 forks) |
| HuffmanTree.CodeOf | rzlib/rzlib/rzlib_huffman.h:17-18 | every symbol at a tip has a code: a bit path that leads to it |
| HuffmanTree.LookupFindsLeaf | rzlib/rzlib/rzlib_huffman.h:186-199 | a bit path only ever names a symbol at some tip |
| HuffmanTree.CodesPrefixFree | rzlib/rzlib/rzlib_huffman.h:186-196 | codes are prefix-free: no proper extension of a path that reaches a tip reaches another |
| HuffmanEncoder.LowerBoundSplits | rzlib/rzlib/rzlib_huffman.h:75 | in a sorted list, `lower_bound` separates the entries of lower frequency from those of equal or higher frequency |
| HuffmanEncoder.InsertSortedPlaces | rzlib/rzlib/rzlib_huffman.h:75 | the merged entry goes in front of every entry of equal or higher frequency and behind the rest |
| HuffmanEncoder.InsertSortedKeepsOrder | rzlib/rzlib/rzlib_huffman.h:75 | inserting at the lower bound keeps the work list sorted |
| HuffmanEncoder.InsertSortedPermutes | rzlib/rzlib/rzlib_huffman.h:75 | inserting adds exactly the new entry to the list's contents |
| HuffmanEncoder.SortByFrequencySorts | rzlib/rzlib/rzlib_huffman.h:48-51 | the sort yields a permutation of the work list sorted by frequency |
| HuffmanEncoder.MergeStep | rzlib/rzlib/rzlib_huffman.h:53-76 | each merge shrinks the work list by exactly one entry |
| HuffmanEncoder.MergeAll | rzlib/rzlib/rzlib_huffman.h:53-76 | the loop ends with one entry left, or none when it started with none |
| HuffmanEncoder.MergeStepBuilds | rzlib/rzlib/rzlib_huffman.h:55-75 | one merge stores the two lowest entries (symbols appended, merged nodes left in place), appends their parent last, inserts the parent into the list, and the parent's tree joins the two entries' trees |
| HuffmanEncoder.MergeStepSorted | rzlib/rzlib/rzlib_huffman.h:53-76 | every merge keeps the work list sorted |
| HuffmanEncoder.MergeStepLeaves | rzlib/rzlib/rzlib_huffman.h:53-76 | every merge keeps the symbols under the work list: the new entry stands for the two it took |
| HuffmanEncoder.MergeStepCounts | rzlib/rzlib/rzlib_huffman.h:53-76 | every merge keeps the sum of the frequencies, and grows the scratch vector by the symbols it took plus one parent |
| HuffmanEncoder.MergeAllKeeps | rzlib/rzlib/rzlib_huffman.h:53-76 | the whole merge loop keeps the encoder invariant |
| HuffmanEncoder.SymbolItemsContents | rzlib/rzlib/rzlib_huffman.h:43-46 | the initial work list carries every symbol and every frequency once, in input order |
| HuffmanEncoder.SortKeepsContents | rzlib/rzlib/rzlib_huffman.h:51 | sorting keeps the symbols, the frequency sum and the symbol count of the work list |
| HuffmanEncoder.MergeLoopResult | rzlib/rzlib/rzlib_huffman.h:53-76 | with n ≥ 2 symbols the loop leaves one merged entry whose frequency is the sum of all frequencies, over 2n − 1 scratch entries, its tree holding every symbol once |
| HuffmanEncoder.StoreNode | rzlib/rzlib/rzlib_huffman.h:101-114 | `store_node` only appends to the table and never shrinks it |
| HuffmanEncoder.StoreNodeShape | rzlib/rzlib/rzlib_huffman.h:101-114 | `store_node` appends the subtree in post-order: exactly its size in entries, a leaf first, a merged node last and referenced by its index, a symbol referenced by its negated index |
| HuffmanEncoder.StoreNodeZeroRef | rzlib/rzlib/rzlib_huffman.h:111-113 | storing a merged node into an empty table puts a symbol at entry 0, so some branch names it by −0, that is 0 |
| HuffmanEncoder.StoreNodeReadsBack | rzlib/rzlib/rzlib_huffman.h:101-114 | the reference `store_node` returns reads back as the subtree, and the table stays post-order |
| HuffmanEncoder.StoreNodeLeaves | rzlib/rzlib/rzlib_huffman.h:101-114 | the leaves `store_node` writes are the subtree's symbols, in order |
| HuffmanEncoder.CodeTree | rzlib/rzlib/rzlib_huffman.h:53-79 | the tree the loop builds is a fork whose tips are exactly the input symbols |
| HuffmanEncoder.EncodeLayout | rzlib/rzlib/rzlib_huffman.h:38-82 | the encoded table has 2n − 1 entries in post-order, the root last and a leaf first, every symbol in exactly one leaf, and the root reads back as the code tree; some branch refers to entry 0 by 0 |
| HuffmanDecoder.Walk | rzlib/rzlib/rzlib_huffman.h:177-200 | the walk only returns the `data` member of an entry past 0, read through the union whichever member that entry was written through, and then it has consumed at least one bit |
| HuffmanDecoder.DecodeNext | rzlib/rzlib/rzlib_huffman.h:169-201 | `decode_next` fails at once exactly on an empty table; a decoded value is the `data` member of some entry past 0, read through the union, and at least one bit was consumed |
| HuffmanDecoder.EncodedTableStartsAtSymbol | rzlib/rzlib/rzlib_huffman.h:101-196 | on any table the encoder writes, entry 0 is a symbol, so `decode_next` starts there rather than at the root: a first bit 1 reads `child[1]` of that symbol, 0, and fails, and a first bit 0 follows the symbol's own value, read as a child reference |
| HuffmanDecoder.EncodedTableMisdecodes | rzlib/rzlib/rzlib_huffman.h:38-200 | encoding the `int` symbols −1 (frequency 1) and 5 (frequency 2) gives them the codes 0 and 1, yet the code of −1 decodes to 5 and the code of 5 meets no child |
| HuffmanDecoder.EncodedZeroChild | rzlib/rzlib/rzlib_huffman.h:111-194 | even started at the right branch, the walk cannot reach the symbol at entry 0: the branch names it by 0, which the decoder reads as no child |
| HuffmanDecoder.WalkFindsCode | rzlib/rzlib/rzlib_huffman.h:177-200 | from a fork laid out in pre-order, decoding a code yields its symbol and leaves the following bits |
| HuffmanDecoder.WalkReadsCode | rzlib/rzlib/rzlib_huffman.h:177-200 | a symbol decoded from a laid-out fork is the one the consumed bits lead to |
| HuffmanDecoder.WalkNeverMisses | rzlib/rzlib/rzlib_huffman.h:181-194 | from a laid-out fork, a stream of 0/1 bits only decodes a symbol or runs out; it never meets a missing child |
| HuffmanDecoder.EncodePreOrder | rzlib/rzlib/rzlib_huffman.h:101-114 | the corrected layout has 2n − 1 entries with the root, a branch, at entry 0 |
| HuffmanDecoder.EncodePreOrderRoundTrip | rzlib/rzlib/rzlib_huffman.h:38-201 | decoding a symbol's code from the corrected table yields that symbol and leaves the rest of the stream |
| HuffmanDecoder.EncodePreOrderSound | rzlib/rzlib/rzlib_huffman.h:169-201 | whatever the corrected table decodes is one of the input symbols, reached by exactly the bits consumed |
| HuffmanDecoder.EncodePreOrderTotal | rzlib/rzlib/rzlib_huffman.h:181-194 | on a stream of 0/1 bits the corrected table never meets a missing child |
| Vectors.LengthSq | Sample2D/Sample2D/Vector2.h:28-31 | `GetLengthSq` is never negative |
| Vectors.LengthSqIsDot | Sample2D/Sample2D/Vector2.h:28-118 | `GetLengthSq(v)` is `Dot(v, v)` and is non-negative |
| Vectors.DotSymmetric | Sample2D/Sample2D/Vector2.h:115-118 | `Dot` is symmetric |
| Vectors.CrossAntisymmetric | Sample2D/Sample2D/Vector2.h:120-123 | the scalar `Cross` is antisymmetric |
| Vectors.CrossVSPerpendicular | Sample2D/Sample2D/Vector2.h:126-129 | `Cross(a, s)` is perpendicular to a |
| Vectors.CrossSVNegates | Sample2D/Sample2D/Vector2.h:126-135 | `Cross(s, a)` is the negation of `Cross(a, s)` |
| Vectors.ComponentMax | Sample2D/Sample2D/Vector2.h:50-101 | the result is `StrictlyGreaterThanOrEqual` both arguments, each component taken from one of them |
| Vectors.ComponentMin | Sample2D/Sample2D/Vector2.h:50-107 | both arguments are `StrictlyGreaterThanOrEqual` the result, each component taken from one of them |
| Vectors.ComponentMaxLeast | Sample2D/Sample2D/Vector2.h:50-101 | `ComponentMax` is the least vector above both: c is above it exactly when c is above both |
| Vectors.ComponentMinGreatest | Sample2D/Sample2D/Vector2.h:50-107 | `ComponentMin` is the greatest vector below both |
| Vectors.AbsReal | Sample2D/Sample2D/Vector2.h:111 | `fabsf` is non-negative and is the value or its negation |
| Vectors.Abs | Sample2D/Sample2D/Vector2.h:109-112 | `Abs` has non-negative components, each the original or its negation |
| Matrices.TransposeInvolution | Sample2D/Sample2D/Matrix2.h:20-23 | `Transpose` is an involution |
| Matrices.TransposeEntries | Sample2D/Sample2D/Matrix2.h:20-23 | `Transpose` swaps rows and columns |
| Matrices.MulMComposes | Sample2D/Sample2D/Matrix2.h:40-53 | (A·B)·v = A·(B·v) |
| Matrices.AddMColumns | Sample2D/Sample2D/Matrix2.h:45-48 | a matrix sum applied to v is the sum of the two products |
| Matrices.InvertUndoes | Sample2D/Sample2D/Matrix2.h:25-36 | with a non-zero determinant, `Invert(A)·(A·v) = v` |
| Matrices.AbsM | Sample2D/Sample2D/Matrix2.h:55-58 | every entry of `Abs(A)` is non-negative |
| Bounds.Translate | Sample2D/Sample2D/AABB.h:17-20 | `Translate(t)` moves both corners by t, keeps the extent Max − Min, and keeps Min ≤ Max |
| Bounds.TranslateZero | Sample2D/Sample2D/AABB.h:17-20 | translating by the zero vector changes nothing |
| Bounds.TranslateTwice | Sample2D/Sample2D/AABB.h:17-20 | translating by t then u is translating by t + u |
| Shapes.ComputeI | Sample2D/Sample2D/Shape.cpp:21-69 | the moment of inertia is non-negative for a non-negative mass and zero for a zero mass |
| Shapes.BoxVertexId | Sample2D/Sample2D/Shape.cpp:30-50 | the box vertex id is in 0..3, odd iff dir.x ≥ 0 and at least 2 iff dir.y ≥ 0 |
| Shapes.GetSupportV | Sample2D/Sample2D/Shape.cpp:27-76 | a vertex id is written iff a slot is passed; a circle's support is dir·(radius + margin) with vertex id 0 |
| Shapes.BoxSupportIsCorner | Sample2D/Sample2D/Shape.cpp:27-52 | a box's support point is the corner its vertex id names, each coordinate +(half width + margin) exactly when that dir component is non-negative, and −(half width + margin) otherwise |
| Shapes.SupportIgnoresSlot | Sample2D/Sample2D/Shape.cpp:30-74 | a null vertex id pointer changes nothing about the support point |
| Bodies.NewBody | Sample2D/Sample2D/Body.cpp:5-16 | a default body is immovable (`FLT_MAX` mass and inertia, zero inverses), has friction 0.2 and no shape, and is at rest at the origin |
| Bodies.Init | Sample2D/Sample2D/Body.cpp:18-36 | `Init` attaches the shape and mass; a mass below `FLT_MAX` gets its reciprocal inverse mass and the shape's inertia with its reciprocal; a larger mass makes the body immovable; nothing else changes |
| Bodies.InitMovable | Sample2D/Sample2D/Body.cpp:18-36 | an initialised body is immovable exactly when its mass is at least `FLT_MAX` |
| Bodies.SetFixedRotation | Sample2D/Sample2D/Body.cpp:38-50 | true sets the inertia to `FLT_MAX` and its inverse to 0; false recomputes the inertia from shape and mass with its reciprocal; nothing else changes |
| Bodies.AddForce | Sample2D/Sample2D/Body.cpp:52-55 | the force grows by f and nothing else changes |
| Bodies.AddImpulse | Sample2D/Sample2D/Body.cpp:57-60 | the velocity changes by invMass·impulse and nothing else changes |
| Bodies.ImmovableIgnoresImpulse | Sample2D/Sample2D/Body.cpp:57-60 | an impulse leaves an immovable body unchanged |
| Contacts.FeatureValue | Sample2D/Sample2D/Manifold.h:19-29 | `FeaturePair::value` is a 32-bit signed integer |
| Contacts.FeatureValueIdentifies | Sample2D/Sample2D/Manifold.h:15-29 | two valid feature pairs have the same `value` exactly when their four edge numbers agree |
| Contacts.NewContact | Sample2D/Sample2D/Manifold.cpp:7-16 | a fresh contact has zero separation, accumulated impulses, effective masses and bias, and zero vectors |
| Contacts.DetectedContact | Sample2D/Sample2D/Collision.cpp:524-530 | a contact collision fills in carries the given separation, normal, position and feature, with no accumulated impulse |
| Contacts.MakePairKey | Sample2D/Sample2D/Manifold.cpp:18-30 | the key holds the two bodies, the smaller in `body1` |
| Contacts.PairKeySymmetric | Sample2D/Sample2D/Manifold.cpp:18-30 | `PairKey(a, b)` equals `PairKey(b, a)` |
| Contacts.LessIsLexicographic | Sample2D/Sample2D/Manifold.h:57-70 | `operator<` compares `body1` first and `body2` on a tie |
| Contacts.LessIsStrictOrder | Sample2D/Sample2D/Manifold.h:57-70 | `operator<` is irreflexive, asymmetric and transitive |
| Contacts.LessTrichotomy | Sample2D/Sample2D/Manifold.h:57-70 | any two keys are ordered one way, the other way, or equal, and equality excludes both orders |
| Manifolds.NewManifold | Sample2D/Sample2D/Manifold.cpp:32-52 | the lower body becomes `body1`, the contacts are what `Collide` reports for the ordered pair (at most `MaxPoints`), and the friction is the square root of the product of the frictions |
| Manifolds.NewManifoldSymmetric | Sample2D/Sample2D/Manifold.cpp:32-52 | naming the two bodies in either order gives the same manifold |
| Manifolds.FirstMatch | Sample2D/Sample2D/Manifold.cpp:62-71 | the search returns −1 iff no previous contact has the feature value, and otherwise the first one that has it |
| Manifolds.Merge | Sample2D/Sample2D/Manifold.cpp:73-88 | a merged contact keeps everything of the new contact except Pn, Pt and Pnb, which come from the first previous contact with the same feature value; without a match it is the new contact unchanged |
| Manifolds.Merged | Sample2D/Sample2D/Manifold.cpp:58-97 | the merged manifold has one contact per new contact, in order, each merged with the previous ones; bodies and friction are kept |
| Manifolds.Update | Sample2D/Sample2D/Manifold.cpp:54-98 | `Update` needs at most `MaxPoints` new contacts and leaves exactly the merged list, so previous contacts nothing continues are dropped |
| Manifolds.MergeMatchesFeature | Sample2D/Sample2D/Manifold.cpp:66 | for `char` edge numbers, matching feature values means matching features, in both directions |
| Manifolds.PushApart | Sample2D/Sample2D/Manifold.cpp:152-196 | a push with impulse p changes only velocities of the two bodies: body2 gains invMass·p and invI·(r2 × p), body1 loses invMass·p and invI·(r1 × p) |
| Manifolds.PushApartUndo | Sample2D/Sample2D/Manifold.cpp:152-156 | pushing with −p after p restores every body, even when the two bodies are one |
| Manifolds.PushApartConservesMomentum | Sample2D/Sample2D/Manifold.cpp:152-156 | between two different movable bodies, what body2 gains in momentum body1 loses |
| Manifolds.InverseOrZero | Sample2D/Sample2D/Manifold.cpp:133-143 | `k > 0 ? 1/k : 0`: a positive k gets a positive reciprocal, otherwise 0 |
| Manifolds.Bias | Sample2D/Sample2D/Manifold.cpp:102-147 | the bias is non-negative whenever invDt is, and positive exactly when invDt > 0 and the penetration exceeds the slop |
| Manifolds.InvEffectiveMassBound | Sample2D/Sample2D/Manifold.cpp:119-130 | along a unit direction, the effective inverse mass is at least the sum of the inverse masses, since the rotational terms are non-negative |
| Manifolds.PreStepContact | Sample2D/Sample2D/Manifold.cpp:107-156 | one contact of `PreStep`: the masses along normal and tangent are reciprocals of the effective inverse masses (0 when those are not positive), the bias follows the rule above, the bodies get the warm-start push, and only the masses and the bias of the contact change |
| Manifolds.PreStepFrom | Sample2D/Sample2D/Manifold.cpp:105-157 | the loop from contact i on prepares the remaining contacts, leaves earlier ones alone and changes only body velocities |
| Manifolds.PreStep | Sample2D/Sample2D/Manifold.cpp:100-158 | `PreStep` prepares every contact (masses and bias only) and changes only body velocities |
| Manifolds.ClampNormal | Sample2D/Sample2D/Manifold.cpp:182-184 | the accumulated normal impulse is non-negative, at least the unclamped sum, and is either that sum or 0 |
| Manifolds.ClampTangent | Sample2D/Sample2D/Manifold.cpp:212-217 | for a non-negative bound the friction impulse lies within ±maxPt, and a sum already inside the bound is kept |
| Manifolds.NormalStep | Sample2D/Sample2D/Manifold.cpp:166-196 | the normal half sets the contact offsets from the two centres and a non-negative accumulated normal impulse, and changes only velocities |
| Manifolds.TangentStep | Sample2D/Sample2D/Manifold.cpp:202-226 | the friction half keeps the friction impulse within friction·Pn and changes only that field and the velocities |
| Manifolds.StepsPushTheChange | Sample2D/Sample2D/Manifold.cpp:183-220 | each half pushes the bodies with the change of its accumulated impulse, not with the raw increment |
| Manifolds.ApplyContact | Sample2D/Sample2D/Manifold.cpp:164-226 | after one contact of `ApplyImpulse`, Pn ≥ 0, Pt lies within ±friction·Pn, and only offsets, impulses and velocities changed |
| Manifolds.ApplyFrom | Sample2D/Sample2D/Manifold.cpp:162-227 | the loop from contact i on solves every remaining contact and leaves earlier ones alone |
| Manifolds.ApplyImpulse | Sample2D/Sample2D/Manifold.cpp:160-228 | after `ApplyImpulse` every contact's normal impulse is non-negative and its friction impulse within friction times it, and only body velocities changed |
| Collision.Sign | Sample2D/Sample2D/Collision.cpp:243-246 | `Sign` is −1 exactly for negative input and 1 otherwise, 0 included; times x it gives the absolute value of x |
| Collision.Flip | Sample2D/Sample2D/Collision.cpp:248-252 | `Flip` swaps inEdge1 with inEdge2 and outEdge1 with outEdge2 |
| Collision.FlipInvolution | Sample2D/Sample2D/Collision.cpp:248-252 | flipping twice gives the feature back |
| Collision.IncidentEdgeFacesAlong | Sample2D/Sample2D/Collision.cpp:297-346 | the edge `ComputeIncidentEdge` picks is one whose outward normal points furthest along the flipped reference normal |
| Collision.LocalIncidentEdgeIsEdge | Sample2D/Sample2D/Collision.cpp:301-346 | the incident edge runs between the two vertices of the chosen edge, each vertex's feature naming the edges that meet there |
| Collision.ComputeIncidentEdge | Sample2D/Sample2D/Collision.cpp:292-350 | the two clip vertices are the local incident edge rotated and moved into world space, and their features are made of edge numbers |
| Collision.Crossing | Sample2D/Sample2D/Collision.cpp:274-285 | the crossing point takes vIn[0]'s feature with inEdge1 = clipEdge when vIn[0] is outside, and otherwise vIn[1]'s feature with outEdge1 = clipEdge |
| Collision.CrossingOnLine | Sample2D/Sample2D/Collision.cpp:270-287 | the crossing point lies on the clipping line |
| Collision.ClipSegmentToLine | Sample2D/Sample2D/Collision.cpp:254-290 | at most two points result: both endpoints when both are inside, none when both are strictly outside, and otherwise the inside endpoint followed by the crossing point when the distances have strictly opposite signs, or the inside endpoint alone when the other distance is 0 |
| Collision.ClipKeepsInside | Sample2D/Sample2D/Collision.cpp:254-290 | every point clipping keeps lies on the inner side of the line |
| Collision.ClipCrossingFeature | Sample2D/Sample2D/Collision.cpp:268-287 | when the endpoints lie strictly on opposite sides, clipping returns two points, the second being the crossing with the clip edge written into the clipped-away endpoint's feature |
| Collision.ClipKeepsEdgeFeatures | Sample2D/Sample2D/Collision.cpp:254-290 | clipping against an edge keeps features made of edge numbers |
| Collision.SelectAxis | Sample2D/Sample2D/Collision.cpp:393-426 | the chosen axis carries its own face separation, and the normal is that axis's column of A's or B's rotation, signed |
| Collision.ReferenceFace | Sample2D/Sample2D/Collision.cpp:428-496 | the clip edges are edge numbers, and the front normal is the normal for A's faces and its negation for B's |
| Collision.EmitContacts | Sample2D/Sample2D/Collision.cpp:519-537 | at most one contact per clipped point, each with separation ≤ 0 and the axis normal, its feature taken from some clipped point, flipped for a B face |
| Collision.ContactsOnReferenceFace | Sample2D/Sample2D/Collision.cpp:522-529 | with a unit front normal, every contact is slid onto the reference face |
| Collision.ClipToReferenceFace | Sample2D/Sample2D/Collision.cpp:498-514 | the two side clips leave at most two points |
| Collision.CollideBoxes | Sample2D/Sample2D/Collision.cpp:353-538 | at most `MaxPoints` contacts, none when any face separation is positive and none when clipping leaves fewer than two points; each with separation ≤ 0, no accumulated impulse, the chosen axis's normal and the feature of some clipped point, flipped exactly when the reference face is B's |
| Collision.BoxFeaturesAreEdges | Sample2D/Sample2D/Collision.cpp:498-537 | every feature a box contact reports is made of edge numbers |
| Collision.CollideCircles | Sample2D/Sample2D/Collision.cpp:545-577 | no contact iff the squared centre distance exceeds (rA + rB)²; otherwise exactly one, with separation √distSq − (rA + rB) and feature 0 |
| Collision.CirclesSymmetric | Sample2D/Sample2D/Collision.cpp:545-577 | whether two circles touch does not depend on their order |
| Collision.ClosestPoint | Sample2D/Sample2D/Collision.cpp:604 | the clamped point lies within the box |
| Collision.ClosestPointFixesInside | Sample2D/Sample2D/Collision.cpp:601-604 | a point is its own clamped point exactly when it is not outside the box |
| Collision.FaceDistances | Sample2D/Sample2D/Collision.cpp:621-627 | four distances, all non-negative for a point inside the box |
| Collision.FirstMinIndex | Sample2D/Sample2D/Collision.cpp:629-636 | the loop finds the first smallest distance: no entry is smaller and every earlier entry is strictly larger |
| Collision.CollideCircleBox | Sample2D/Sample2D/Collision.cpp:579-654 | at most one contact; with the centre outside the box, none iff the distance to the clamped point exceeds the radius; inside, exactly one with separation −(first smallest face distance + r); feature 0 |
| Collision.CollideBoxCircle | Sample2D/Sample2D/Collision.cpp:656-729 | the same rules with the box as A and the circle as B |
| Collision.InsideSeparation | Sample2D/Sample2D/Collision.cpp:619-638 | a circle whose centre is inside the box penetrates by at least its radius |
| Collision.CollideBoxPair | Sample2D/Sample2D/Collision.cpp:353-538 | two boxes give at most `MaxPoints` fresh contacts whose features are edge numbers |
| Collision.Collide | Sample2D/Sample2D/Collision.cpp:27-66 | each of the four box/circle combinations goes to its routine; the result has at most `MaxPoints` fresh contacts with edge-number features, and two circles touch iff their centres are within the sum of the radii |
| PairMaps.Find | Sample2D/Sample2D/PhysicsWorld.cpp:90-91 | `find` succeeds exactly for keys in the map and returns the value stored under the key |
| PairMaps.FindEntry | Sample2D/Sample2D/PhysicsWorld.cpp:90-91 | in a sorted map, `find` returns every entry's own value for its key |
| PairMaps.Insert | Sample2D/Sample2D/PhysicsWorld.cpp:94 | `insert` keeps the map sorted, adds the key with the value when it is absent, leaves a present key's value alone, and touches no other key |
| PairMaps.Assign | Sample2D/Sample2D/PhysicsWorld.cpp:99 | writing through the iterator keeps the keys and the order and changes only the value under that key |
| PairMaps.Erase | Sample2D/Sample2D/PhysicsWorld.cpp:105 | `erase` removes the key, if present, and keeps every other entry |
| PhysicsWorld.NewWorld | Sample2D/Sample2D/PhysicsWorld.cpp:6-10 | a new world has the given gravity and iteration count, no bodies and no manifolds |
| PhysicsWorld.AddBody | Sample2D/Sample2D/PhysicsWorld.cpp:12-15 | `Add` appends the body to the list, also a second time, and changes nothing else |
| PhysicsWorld.PairsVisitEachOnce | Sample2D/Sample2D/PhysicsWorld.cpp:67-76 | the two loops visit exactly the position pairs i < j, each once, in row-major order |
| PhysicsWorld.KeyAt | Sample2D/Sample2D/PhysicsWorld.cpp:85 | the key of a visited pair holds exactly its two bodies |
| PhysicsWorld.ContactsAt | Sample2D/Sample2D/PhysicsWorld.cpp:82 | the manifold built for a pair has at most `MaxPoints` contacts |
| PhysicsWorld.Visit | Sample2D/Sample2D/PhysicsWorld.cpp:75-106 | a pair of immovable bodies leaves the map alone; otherwise the key ends up present iff the bodies touch, a missing key gets the new manifold, a present one is merged with `Update`, and no other key changes |
| PhysicsWorld.VisitAllElsewhere | Sample2D/Sample2D/PhysicsWorld.cpp:67-108 | keys no visited pair names are left as they were |
| PhysicsWorld.VisitAllTracks | Sample2D/Sample2D/PhysicsWorld.cpp:67-108 | when visited pairs name distinct keys, each pair's own visit decides what is left under its key |
| PhysicsWorld.UpdateManifolds | Sample2D/Sample2D/PhysicsWorld.cpp:61-109 | `UpdateManifolds` changes only the manifold map |
| PhysicsWorld.UpdateManifoldsTracks | Sample2D/Sample2D/PhysicsWorld.cpp:61-109 | with no body listed twice, each pair of listed bodies that are not both immovable has a manifold afterwards exactly when they touch, and a pair of immovable bodies keeps whatever it had |
| PhysicsWorld.UpdateManifoldsKeepsOthers | Sample2D/Sample2D/PhysicsWorld.cpp:61-109 | the key of every pair involving an unlisted body is left as it was |
| PhysicsWorld.InvDt | Sample2D/Sample2D/PhysicsWorld.cpp:19 | `invDt` is the reciprocal of a positive time step and 0 otherwise |
| PhysicsWorld.ForEachBody | Sample2D/Sample2D/PhysicsWorld.cpp:25-51 | a loop over the body list applies its body once per listing to each listed body and leaves the rest alone |
| PhysicsWorld.Accelerate | Sample2D/Sample2D/PhysicsWorld.cpp:27-31 | an immovable body is skipped; otherwise only the linear and angular velocities change |
| PhysicsWorld.FreeFall | Sample2D/Sample2D/PhysicsWorld.cpp:30-31 | with no force and no torque a movable body gains exactly dt·gravity in velocity |
| PhysicsWorld.AccelerateIsImpulse | Sample2D/Sample2D/PhysicsWorld.cpp:30 | integrating gravity and force over dt is the same as applying the impulse dt·(m·g + F) |
| PhysicsWorld.Drift | Sample2D/Sample2D/PhysicsWorld.cpp:53-57 | a body's turn of the last loop changes only position and rotation and clears force and torque |
| PhysicsWorld.DriftBack | Sample2D/Sample2D/PhysicsWorld.cpp:53-54 | drifting over −dt undoes a drift over dt |
| PhysicsWorld.IntegrateForcesVelocities | Sample2D/Sample2D/PhysicsWorld.cpp:25-32 | force integration changes only velocities, and never an immovable body's |
| PhysicsWorld.PreStepEach | Sample2D/Sample2D/PhysicsWorld.cpp:35-38 | `PreStep` runs on every manifold from position i on in key order, preparing its contacts and changing only velocities |
| PhysicsWorld.ApplyEach | Sample2D/Sample2D/PhysicsWorld.cpp:43-46 | one pass of `ApplyImpulse` over every manifold from position i on, in key order |
| PhysicsWorld.ApplyRounds | Sample2D/Sample2D/PhysicsWorld.cpp:41-47 | `iterations` passes of `ApplyImpulse`: none for a count at most 0, and otherwise every contact ends with Pn ≥ 0 and Pt within friction·Pn |
| PhysicsWorld.IntegrateForces | Sample2D/Sample2D/PhysicsWorld.cpp:24-32 | the force loop changes only velocities, never an immovable body's, once per listing |
| PhysicsWorld.Solve | Sample2D/Sample2D/PhysicsWorld.cpp:34-47 | `PreStep` once per manifold, then the iterations: every contact ends prepared, and also solved when there was at least one iteration |
| PhysicsWorld.IntegrateVelocities | Sample2D/Sample2D/PhysicsWorld.cpp:49-58 | the last loop changes only the motion state and leaves every listed body with zero force and torque |
| PhysicsWorld.StepWorld | Sample2D/Sample2D/PhysicsWorld.cpp:17-59 | `Update(dt)` updates the manifolds, integrates forces, solves and integrates velocities; it keeps bodies, shapes and masses, clears every listed body's force and torque, and leaves each manifold prepared, or solved when the iteration count is positive |
| SpriteQueues.NextCount | Sample2D/Sample2D/SpriteBatch.cpp:120 | `_numInstances++` on a 32-bit counter stays below 2^32 and wraps to (c + 1) mod 2^32 |
| SpriteQueues.InstancesOf | Sample2D/Sample2D/SpriteBatch.h:65 | a texture's list in the ordered map is non-empty exactly when the texture is a key |
| SpriteQueues.Append | Sample2D/Sample2D/SpriteBatch.cpp:122-127 | `push_back` into the texture's list, creating it first: the map stays ordered, that texture's list gains the instance at its end, every other list is unchanged |
| SpriteQueues.NormalizedSource | Sample2D/Sample2D/SpriteBatch.cpp:102-112 | the source rectangle in 0-to-1 texture coordinates, scaled back by the texture's size, is the texel rectangle |
| SpriteQueues.WholeSourceIsUnit | Sample2D/Sample2D/SpriteBatch.cpp:102-106 | without a source rectangle the sprite samples (0, 0) to (1, 1) |
| SpriteQueues.ChunksCoverList | Sample2D/Sample2D/SpriteBatch2.cpp:59-68 | the chunking loop, with each chunk read from where the previous one ended, uploads the rest of the list exactly once in order, draws as many instances as it uploads, and never exceeds `MaxInstancesPerTexture` per chunk |
| SpriteQueues.ShortListsAgree | Sample2D/Sample2D/SpriteBatch2.cpp:59-68 | a list of at most `MaxInstancesPerTexture` instances goes up in one chunk, identically in the loop as written and the corrected loop |
| SpriteQueues.AsWrittenRepeatsFirstChunk | Sample2D/Sample2D/SpriteBatch2.cpp:64 | the loop as written, on 65537 instances, uploads the first instance twice and never the last one |
| SpriteQueues.ShortGroupsAgree | Sample2D/Sample2D/SpriteBatch.cpp:57-75 | while every texture's list fits the instance buffer, the loop over the map as written and with the corrected chunk loop submit the same events |
| SpriteQueues.SubmitGroupsCovers | Sample2D/Sample2D/SpriteBatch.cpp:57-75 | with the corrected chunk loop, submitting the map uploads every queued instance exactly once, texture by texture in map order, draws that many, and binds each texture once in map order |
| SpriteQueues.EmptyQueue | Sample2D/Sample2D/SpriteBatch.cpp:79-80 | the cleared queue: counter 0 and every texture's list empty |
| SpriteQueues.Push | Sample2D/Sample2D/SpriteBatch.cpp:120-127 | the tail of `Draw`: the instance goes to the end of its texture's list, other lists are unchanged and the counter advances modulo 2^32 |
| SpriteQueues.Flush | Sample2D/Sample2D/SpriteBatch.cpp:55-81 | `End` after the pipeline setup, with the corrected chunk loop: the counter is uploaded first, every queued instance is uploaded once in map order and drawn, each texture bound once, and the queue is left empty; while every list fits the instance buffer these are exactly the events of the loop as written |
| SpriteQueues.AdvanceWraps | Sample2D/Sample2D/SpriteBatch.cpp:120 | n increments of the 32-bit counter add n modulo 2^32 |
| SpriteQueues.PushAllSelects | Sample2D/Sample2D/SpriteBatch.cpp:122-127 | a run of pushes grows each texture's list by exactly the instances pushed to it, in push order |
| SpriteQueues.PushAllCounts | Sample2D/Sample2D/SpriteBatch.cpp:120 | a run of pushes advances the counter by their number modulo 2^32 |
| SpriteQueues.Stamped | Sample2D/Sample2D/SpriteBatch.cpp:120 | the k-th call of a run carries the starting counter plus k modulo 2^32 |
| SpriteQueues.QueueAllInCallOrder | Sample2D/Sample2D/SpriteBatch.cpp:95-128 | a run of draws grows each texture's list by the instances of exactly the calls naming it, in call order, each numbered by its position in the run |
| SpriteQueues.QueueAllCounts | Sample2D/Sample2D/SpriteBatch.cpp:120 | a run of draws advances the counter by the number of calls modulo 2^32 |
| SpriteQueues.AppendFlatten | Sample2D/Sample2D/SpriteBatch.cpp:122-127 | appending adds exactly one instance to the multiset `End` would submit |
| SpriteQueues.QueueAllFlatten | Sample2D/Sample2D/SpriteBatch.cpp:95-128 | a run of draws adds to what `End` submits exactly the instances the calls made, as a multiset |
| PixelSpriteBatch.NewBatch | Sample2D/Sample2D/SpriteBatch.cpp:14-24 | the constructor leaves the batch closed, the reciprocals zero and nothing queued |
| PixelSpriteBatch.Begin | Sample2D/Sample2D/SpriteBatch.cpp:26-36 | `Begin` keeps the reciprocals of the viewport's width and height and opens the batch, leaving the queue alone |
| PixelSpriteBatch.Draw | Sample2D/Sample2D/SpriteBatch.cpp:95-128 | `Draw` throws exactly outside `Begin`/`End`; otherwise its numbered instance is appended to its texture's list, the counter advances mod 2^32 and nothing else changes |
| PixelSpriteBatch.DrawAt | Sample2D/Sample2D/SpriteBatch.cpp:84-88 | `Draw(texture, x, y)` asks for the whole texture at its own size with its top-left at (x, y), unrotated |
| PixelSpriteBatch.DrawInto | Sample2D/Sample2D/SpriteBatch.cpp:90-93 | `Draw(texture, dest)` asks for the whole texture stretched over dest, unrotated |
| PixelSpriteBatch.DestRoundTrip | Sample2D/Sample2D/SpriteBatch.cpp:32-117 | the instance's destination, scaled back by the viewport's size, is the pixel rectangle of the call |
| PixelSpriteBatch.DrawAtIsTexelForPixel | Sample2D/Sample2D/SpriteBatch.cpp:84-117 | `Draw(texture, x, y)` samples the whole texture, unrotated, over a pixel area of the texture's size starting at (x, y) |
| PixelSpriteBatch.DrawAllQueues | Sample2D/Sample2D/SpriteBatch.cpp:95-128 | inside a batch every draw of a run records, and the queue is the fold of the calls' instances |
| PixelSpriteBatch.DrawAllOutsideThrows | Sample2D/Sample2D/SpriteBatch.cpp:97-100 | outside a batch the first draw throws |
| PixelSpriteBatch.DrawAllInCallOrder | Sample2D/Sample2D/SpriteBatch.cpp:120-127 | a run of draws grows each texture's list by the instances of the calls naming it, in call order |
| PixelSpriteBatch.CallsNumberedInOrder | Sample2D/Sample2D/SpriteBatch.cpp:120 | the k-th draw of a run carries `zIndex` equal to the starting counter plus k modulo 2^32 |
| PixelSpriteBatch.DrawAllAdvances | Sample2D/Sample2D/SpriteBatch.cpp:120 | a run of draws keeps the batch open and advances the counter once per call |
| PixelSpriteBatch.DrawAllQueuesEveryCall | Sample2D/Sample2D/SpriteBatch.cpp:95-128 | a run of draws adds exactly its instances to what `End` submits |
| PixelSpriteBatch.End | Sample2D/Sample2D/SpriteBatch.cpp:38-82 | `End`, with the corrected chunk loop, uploads the counter, submits every queued instance once in map order with one bind per texture, then closes the batch with an empty queue and counter 0, keeping the reciprocals; nothing checks that a batch was open; while every list fits the instance buffer the events are those of the loop as written |
| PixelSpriteBatch.FrameSubmitsEveryDraw | Sample2D/Sample2D/SpriteBatch.cpp:26-128 | one frame of `Begin`, draws and `End`, with the corrected chunk loop, from an empty queue uploads the number of draws mod 2^32, submits exactly the draws' instances and leaves the batch closed and empty |
| WorldSpriteBatch.NewBatch | Sample2D/Sample2D/SpriteBatch2.cpp:15-23 | the constructor zeroes the viewport, leaves the batch closed and nothing queued |
| WorldSpriteBatch.Begin | Sample2D/Sample2D/SpriteBatch2.cpp:25-30 | `Begin` records the viewport centre and size and opens the batch, leaving the queue and counter alone |
| WorldSpriteBatch.Draw | Sample2D/Sample2D/SpriteBatch2.cpp:88-117 | `Draw` throws exactly outside `Begin`/`End`; otherwise its numbered instance is appended to its texture's list, the counter advances mod 2^32 and nothing else changes |
| WorldSpriteBatch.ShortDrawsAreWholeTexture | Sample2D/Sample2D/SpriteBatch2.cpp:78-109 | the short overloads sample (0, 0) to (1, 1) at the texture's texel size at the given position, unrotated or with the given rotation |
| WorldSpriteBatch.PartSourceRoundTrip | Sample2D/Sample2D/SpriteBatch2.cpp:96-108 | with a source rectangle, the instance's source scaled back by the texture's size is that rectangle, and position, size and rotation pass through |
| WorldSpriteBatch.DrawAllQueues | Sample2D/Sample2D/SpriteBatch2.cpp:88-117 | inside a batch every draw of a run records, and the queue is the fold of the calls' instances |
| WorldSpriteBatch.DrawAllOutsideThrows | Sample2D/Sample2D/SpriteBatch2.cpp:90-93 | outside a batch the first draw throws |
| WorldSpriteBatch.DrawAllInCallOrder | Sample2D/Sample2D/SpriteBatch2.cpp:109-116 | a run of draws grows each texture's list by the instances of the calls naming it, in call order |
| WorldSpriteBatch.CallsNumberedInOrder | Sample2D/Sample2D/SpriteBatch2.cpp:109 | the k-th draw of a run carries `zIndex` equal to the starting counter plus k modulo 2^32 |
| WorldSpriteBatch.DrawAllAdvances | Sample2D/Sample2D/SpriteBatch2.cpp:109 | a run of draws keeps the batch open and advances the counter once per call |
| WorldSpriteBatch.DrawAllQueuesEveryCall | Sample2D/Sample2D/SpriteBatch2.cpp:88-117 | a run of draws adds exactly its instances to what `End` submits |
| WorldSpriteBatch.End | Sample2D/Sample2D/SpriteBatch2.cpp:32-76 | `End`, with the corrected chunk loop, uploads the counter, submits every queued instance once in map order with one bind per texture, then closes the batch with an empty queue and counter 0, keeping the viewport; while every list fits the instance buffer the events are those of the loop as written |
| WorldSpriteBatch.FrameSubmitsEveryDraw | Sample2D/Sample2D/SpriteBatch2.cpp:25-117 | one frame of `Begin`, draws and `End`, with the corrected chunk loop, from an empty queue uploads the number of draws mod 2^32, submits exactly the draws' instances and leaves the batch closed and empty |
| ColorPacking.Wrap32 | CPURaytracer/Raytracer.cpp:764-770 | the `int` to `uint32_t` conversion of the packed value lands below 2^32, differs from it by a multiple of 2^32, and keeps a value already in range |
| ColorPacking.Cap | CPURaytracer/Raytracer.cpp:767-769 | `min(255, c)` is at most 255, keeps a channel up to 255 and caps anything larger at 255 |
| ColorPacking.ByteAt | CPURaytracer/Raytracer.cpp:728 | `(s >> 8k) & 0xFF` is a byte, below 256 |
| ColorPacking.PackedLayout | CPURaytracer/Raytracer.cpp:766-769 | channels already in 0..255 pack without overlap as alpha 0xFF, red, green, blue from the top byte down |
| ColorPacking.BytesReadBack | CPURaytracer/Raytracer.cpp:728 | the shifts and masks read back each byte of a value laid out byte by byte |
| ColorPacking.PackReadsCappedChannels | CPURaytracer/Raytracer.cpp:728-770 | for non-negative channels the packed texel reads back alpha 0xFF and each channel capped at 255 |
| ColorPacking.BytesOfValue | CPURaytracer/Raytracer.cpp:728 | every 32-bit value is determined by its four bytes |
| ColorPacking.ColorRoundTrip | CPURaytracer/Raytracer.cpp:728-770 | a colour in whole 1/255 steps converted to a texel and decoded gives the colour back |
| ColorPacking.TexelRoundTrip | CPURaytracer/Raytracer.cpp:728-770 | an opaque texel decoded to a colour and converted back gives the texel |
| RenderJobs.TilesAcrossCounts | CPURaytracer/Raytracer.cpp:135-137 | tile origin i times `TileSize` is one of the loop's origins exactly when it lies inside the extent |
| RenderJobs.TileJobsAt | CPURaytracer/Raytracer.cpp:135-145 | job number row times cols plus col is the tile in that row and column: the jobs are row-major |
| RenderJobs.Render | CPURaytracer/Raytracer.cpp:132-147 | `Render`'s loops produce the row-major job list of 4-pixel tiles covering the image |
| RenderJobs.ProcessRenderJob | CPURaytracer/Raytracer.cpp:656-688 | a job visits exactly the pixels of its tile clipped to the image, row by row from the top |
| RenderJobs.TileHoldsItsPixels | CPURaytracer/Raytracer.cpp:140-143 | a clipped tile of the grid holds a pixel exactly when the pixel is in the image and its coordinates divided by `TileSize` name that tile |
| RenderJobs.PixelInItsJob | CPURaytracer/Raytracer.cpp:656-688 | every pixel of the image is visited by some job of `Render` |
| RenderJobs.PixelInNoOtherJob | CPURaytracer/Raytracer.cpp:656-688 | no pixel is visited by two jobs |
| RenderJobs.JobsStayInImage | CPURaytracer/Raytracer.cpp:660-667 | every pixel a job visits is inside the image, so `Accum[y * Width + x]` stays in range |
| RenderJobs.AsWrittenCapacityOverflows | CPURaytracer/Raytracer.cpp:220 | for a 5 by 4 image `Render` writes two jobs into an array of one |
| RenderJobs.AsWrittenCapacityFitsOnlyWholeTiles | CPURaytracer/Raytracer.cpp:220 | for a non-empty image the array as allocated holds every job exactly when both sides are multiples of `TileSize` |
| RenderJobs.CapacityFitsJobs | CPURaytracer/Raytracer.cpp:132-220 | the rounded-up capacity equals the number of jobs and is never below the one as written |
| RenderWorkers.Start | CPURaytracer/Raytracer.cpp:147-148 | a frame starts with the counter at the job count, nothing rendered and no finish signal |
| RenderWorkers.AllJobs | CPURaytracer/Raytracer.cpp:147 | the frame's jobs are exactly the numbers below the job count |
| RenderWorkers.ClaimJob | CPURaytracer/Raytracer.cpp:636-641 | `InterlockedDecrement`: the counter drops by one; a non-negative result is the job the worker renders, a negative one leaves it waiting |
| RenderWorkers.CompleteAsWritten | CPURaytracer/Raytracer.cpp:643-649 | finishing a job records it and signals the frame finished exactly when that job is job 0 |
| RenderWorkers.CompleteJob | CPURaytracer/Raytracer.cpp:643-649 | the corrected completion records the job, counts the remaining jobs down and signals exactly when none remains |
| RenderWorkers.StartClaimed | CPURaytracer/Raytracer.cpp:147 | at the start no job is claimed twice and the remaining count is the job count |
| RenderWorkers.ClaimKeepsClaimed | CPURaytracer/Raytracer.cpp:636-643 | a claim keeps every job claimed by at most one worker, never rendered twice |
| RenderWorkers.CompleteKeepsClaimed | CPURaytracer/Raytracer.cpp:643-649 | completing a job keeps the claims consistent |
| RenderWorkers.CompleteKeepsCounted | CPURaytracer/Raytracer.cpp:643-649 | the corrected completion keeps the remaining count equal to the jobs not yet rendered |
| RenderWorkers.FixedKeepsInvariant | CPURaytracer/Raytracer.cpp:622-654 | on any schedule the corrected pool keeps claims consistent and the remaining count exact |
| RenderWorkers.AsWrittenKeepsClaimed | CPURaytracer/Raytracer.cpp:622-654 | on any schedule the pool as written renders each job at most once and only jobs of the frame |
| RenderWorkers.AsWrittenSignalFollowsJobZero | CPURaytracer/Raytracer.cpp:645-649 | the signal as written comes only after job 0 is rendered, by which time every job has been claimed |
| RenderWorkers.AsWrittenSignalsEarly | CPURaytracer/Raytracer.cpp:645-649 | two jobs on two workers: the frame is signalled finished while job 1 is still rendering |
| RenderWorkers.FixedSignalsWhenAllDone | CPURaytracer/Raytracer.cpp:622-654 | with the corrected count the frame is signalled exactly when every job has been rendered, on any schedule |
| TestScene.AddQuad | CPURaytracer/Raytracer.cpp:343-364 | a quad becomes two triangles, six vertices each with one texture coordinate |
| TestScene.QuadMapsUnitSquare | CPURaytracer/Raytracer.cpp:343-364 | on a parallelogram each vertex is the point its texture coordinate names, so the unit square maps onto the quad |
| TestScene.CubeFace | CPURaytracer/Raytracer.cpp:373-390 | each face of `AddCube` is a quad of six vertices |
| TestScene.AddCube | CPURaytracer/Raytracer.cpp:366-392 | a cube is 36 vertices, each with a texture coordinate |
| TestScene.CubeMapsUnitSquare | CPURaytracer/Raytracer.cpp:366-392 | vertex k of a cube lies on face k / 6 of the box, at the point its texture coordinate names |
| TestScene.SceneCounts | CPURaytracer/Raytracer.cpp:473-617 | the scene's own checks hold: 114 vertices, one texture coordinate each, one surface property per triangle |
| TestScene.SceneTexturesAndLight | CPURaytracer/Raytracer.cpp:496-602 | only the tall box's 12 triangles are textured, with texture 0, and only the ceiling light's 2 triangles emit |
| TestScene.SceneColors | CPURaytracer/Raytracer.cpp:505-614 | the left wall is red with reflectiveness 1, the right wall green, all else white; the tall box reflects 0.3 and the rest nothing |
| TestScene.SceneLightAndTexturedBox | CPURaytracer/Raytracer.cpp:577-602 | the light quad hangs level at height 2.495 and the textured vertices are the tall box's |
| TestScene.WallsInBox | CPURaytracer/Raytracer.cpp:505-589 | a consequence of the scene's constants, not a check the code makes: the walls and the light lie inside the 5 by 5 by 5 room |
| TestScene.TallBoxInBox | CPURaytracer/Raytracer.cpp:591-594 | a consequence of the scene's constants: the tall box lies inside the room |
| TestScene.SmallBoxInBox | CPURaytracer/Raytracer.cpp:604-607 | a consequence of the scene's constants: the small box lies inside the room |
| TestScene.SceneInBox | CPURaytracer/Raytracer.cpp:502-614 | a consequence of the scene's constants, not a check the code makes: every vertex of the scene lies inside the room |
| RayQuery.NearestHitIsNearest | CPURaytracer/Raytracer.cpp:778-799 | the nearest-hit scan keeps the hit no other hit beats, the earliest among equals, and keeps nothing exactly when no hit is nearer than `FLT_MAX` |
| RayQuery.TraceRay | CPURaytracer/Raytracer.cpp:773-802 | `TraceRay` reports a hit exactly when some triangle is hit; without a record it stops at the first hit, with one it scans every triangle and writes the nearest hit below `FLT_MAX` |

## Left out

- Floating point: every `float` is a `real`, so rounding, overflow to infinity and NaN are not modelled. Where the code divides, the model requires a non-zero divisor or takes the zero case as an explicit branch.
- `sqrtf` and the rotation matrices built from an angle with `cosf`/`sinf` enter the physics as a `FloatOps` record of function values, so their numeric values are not modelled.
- Bodies.Init: requires a finite mass and its inertia to be non-zero, because the code would store `1.0f / 0.0f`, an infinity that `real` has no value for.
- Bodies.SetFixedRotation: requires a shape and a non-zero inertia when turning rotation back on, for the same reason.
- PixelSpriteBatch.Begin: requires a viewport of non-zero size, for the same reason (`1.0f / Width`).
- Collision.Collide: requires both bodies to have a shape; the code dereferences the shape pointer without a check.
- Manifolds.Update: requires at most two new contacts, the size of the array the narrow phase fills.
- PhysicsWorld.UpdateManifoldsTracks: requires the body list to hold no body twice; a body listed twice would make the pair (b, b), which the code does not guard against either.
- BitStream.ReadBits: requires the next block to exist when a read crosses a block boundary, because the code as written reads past the end of the source there (see Findings); the corrected `ReadBitsChecked` has no such precondition.
- HuffmanEncoder.CodeTree: requires at least two symbols; with none the code reads `list.front()` of an empty deque, and with one no merge runs, so `the_nodes` stays empty and `store_node` indexes it with `list.front().index`, the symbol's value read through the union.
- SpriteQueues.Flush: uploads every instance once only with the corrected chunk loop; the code as written uploads every chunk from the start of its list (see Findings), and the model promises the as-written events only while every texture's list fits the instance buffer (`ShortGroupsAgree`).
- SpriteQueues.SubmitGroupsCovers: states the cover for the corrected chunk loop, for the same reason.
- PixelSpriteBatch.End: its upload promise is for the corrected chunk loop; the code as written (SpriteBatch.cpp line 70) repeats the first chunk once a list exceeds the instance buffer.
- WorldSpriteBatch.End: likewise for SpriteBatch2.cpp line 64.
- PixelSpriteBatch.FrameSubmitsEveryDraw: submits exactly the draws' instances only under the corrected chunk loop.
- WorldSpriteBatch.FrameSubmitsEveryDraw: likewise.
- HuffmanEncoder.MergeStepCounts: frequencies are unbounded integers; the code adds them as signed `int`, which overflows, undefined in C++, once a sum passes 2^31 − 1, so the kept sum holds only while every merged frequency fits in an `int`.
- HuffmanEncoder.MergeLoopResult: for the same reason, the root's frequency is the total of all frequencies only when that total fits in an `int`.
- The `std::sort` in `encode` is not stable and its order for equal frequencies is unspecified; the model sorts with a stable insertion sort, and the merge-loop lemmas hold for any frequency-sorted list.
- The Huffman decoder's own table cannot be filled in the source (`add_symbol` is commented out and `nodes` is private), so `DecodeNext` takes the table as a parameter; bits are the results of one-bit masked reads. What reading one member of the node union gives after writing the other depends on `TData`'s representation, so the decoder takes those two readings as a parameter (`UnionReads`).
- Threads, events, `WaitForMultipleObjects` and `InterlockedDecrement`: the worker pool is sequentialised as a schedule of claim and complete steps, each atomic.
- A frame with zero jobs: no worker ever completes a job, so `Render` would wait forever; the model only states that such a frame is never signalled.
- `RayTriangleIntersect`, `ShadePoint`, `PickRandomVectorInHemisphere` and `rand()`: each triangle's test enters `TraceRay` as its result, and shading is not modelled.
- `Present`, `Clear`, `Initialize`, the Win32 window, the GDI back buffer, WIC texture loading and every Direct3D resource and pipeline call: none is modelled; sprite batches record uploads, binds and draws as abstract events.
- The texel index `(int)(v * Height) * Width + (int)(u * Width)` is not modelled, nor its range.
- ColorPacking.Cap: negative channels are not modelled; the code caps only from above, and a negative channel would set high bits.
- The texture is converted to `GUID_WICPixelFormat32bppRGBA` but decoded as 0xAARRGGBB, which swaps red and blue; the model follows the decode as written.
- Raytracer.h and Raytracer.cpp belong to different revisions (the header declares `ComputeRadiance`, `BlurEnabled` and `unique_ptr` members the .cpp does not use); the model follows Raytracer.cpp and takes only `TileSize` from the header.
- The scene comment mentions five walls; the code builds six walls and a light quad, and the model follows the code.
- The 32-bit job counter is never near wrap-around in practice; the sprite counter's wrap modulo 2^32 is modelled.
- A `Contact`'s feature is uninitialised in the source until the narrow phase writes it; the model starts it at zero.
- The `#if 0` block of Collision.cpp and Game.cpp are not part of this model.

## Findings

| source | as written | input that shows it | evidently intended | confidence | as-written member | corrected member |
|---|---|---|---|---|---|---|
| rzlib/rzlib/rzlib_bitstream.h:86-97 | a read that ends exactly at the end of the last block loads `source[block + 1]`, one past the end | two `uint16_t` blocks, two reads of 16 bits each (the sample program's loop) | read the next block only when it exists, and report the stream exhausted otherwise | not executed | BitStream.SampleReadsPastEnd | BitStream.ReadBitsChecked |
| rzlib/rzlib/rzlib_bitstream.h:93-101 | for `uint32_t` and `uint64_t` blocks, a read that ends on a block end shifts the loaded block right by its full width, which is undefined in C++ | two `uint32_t` blocks read one byte at a time; the fourth read ends on the first block's end | take nothing from the next block when no bits of it are needed | not executed | BitStream.WideFourthByte | BitStream.ReadBitsCheckedWindow |
| rzlib/rzlib/rzlib_huffman.h:79-200 | `store_node` writes the table in post-order with the root last, so entry 0 is a symbol, and references that symbol as -0, that is 0; `decode_next` starts at entry 0 and treats 0 as no child | the `int` symbols −1 (frequency 1) and 5 (frequency 2), codes 0 and 1: the stream 0 decodes to 5 and the stream 1 meets no child | lay the table out with the root at entry 0 so that every code decodes to its symbol | not executed | HuffmanDecoder.EncodedTableMisdecodes | HuffmanDecoder.EncodePreOrderRoundTrip |
| Sample2D/Sample2D/SpriteBatch2.cpp:64 | every chunk of a texture's list is uploaded from `data()`, the start of the list | 65537 instances of one texture | upload each chunk from `data() + instancesCompleted` | not executed | SpriteQueues.AsWrittenRepeatsFirstChunk | SpriteQueues.ChunksCoverList |
| Sample2D/Sample2D/SpriteBatch.cpp:70 | the same loop in the pixel batch: every chunk of a texture's list is uploaded from `data()` | 65537 instances of one texture | upload each chunk from `data() + instancesCompleted` | not executed | SpriteQueues.AsWrittenRepeatsFirstChunk | SpriteQueues.SubmitGroupsCovers |
| CPURaytracer/Raytracer.cpp:220 | the job array holds `(Width / TileSize) * (Height / TileSize)` entries, rounding down, while `Render` makes a job for every partial tile | a 5 by 4 image: two jobs, room for one | round both quotients up | not executed | RenderJobs.AsWrittenCapacityOverflows | RenderJobs.CapacityFitsJobs |
| CPURaytracer/Raytracer.cpp:645-649 | the worker that renders job 0 signals the frame finished, though other workers may still be rendering | two jobs on two workers: worker 0 claims job 1, worker 1 claims and finishes job 0 | signal when the last job to finish has finished | not executed | RenderWorkers.AsWrittenSignalsEarly | RenderWorkers.FixedSignalsWhenAllDone |
