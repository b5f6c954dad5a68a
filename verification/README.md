# Verified models of busybox applets

Models, in Dafny 4.11, of the algorithmic cores of five applets of busybox 1.24.2, with proofs
of what these algorithms promise. `dafny verify dfyconfig.toml` checks everything.

**gzip.** The whole DEFLATE compressor: a sliding window with hash chains and lazy matching, the
record of tokens, a Huffman builder on a heap with a repair loop for codes that are too long,
canonical codes, run-length coded headers, the choice between the three forms of a block, and a
bit writer over a byte buffer. The reference is a decoder written from RFC 1951 (`Inflate`,
`Tokens`, `RunLengths`, `Canonical`). The main result is `Gzip.Zip`: for every input and every
way reads split it, the decoder gets back the input. Beside it stand optimality of the code
lengths among all lengths that obey the Kraft inequality, exactly where an optimal code fits the
limit on lengths (`BuildTree.BuildTree`), exactness of
the predicted block lengths (`FlushTrees.BuildTrees`, `Flush.SendBlock`), soundness of the
comparisons the match finder leaves out, and that its search follows complete hash chains, so that with
effort left it finds the longest match (`Longest.LongestMatch`, `Deflate.FindMatch`). What the decoder
takes from the standard is fixed by formulas and streams of its own (`Standard`).

**lzop.** The optimizer that rewrites an LZO1X stream in place while it decodes it. The reference
is a step-by-step decoder (`Lzo`), which a writer of the instruction set fixes from the other side
(`LzoWrite.StreamDecodes`); each of the five rewritings is shown to keep what the stream
leads to, and `LzoOptimize.Optimize` that length and meaning of the stream stay. The checksum with
its delayed modulus is `Adler`.

**dpkg.** The open-addressed tables against maps (with double hashing modulo primes), the order of
versions against the lexicographic order of keys and against the texts of versions (`VersionLaws`,
`DpkgLaws`), the reading of dependency fields against writing
them, and the dependency pass, which counts alternatives to skip, against the formula it decides.
`DpkgIndex.CheckStatusFile` puts them together: what the program decides about a status file is
whether, among its entries taken as text (`DpkgRecords.Satisfied`), every dependency is met.

**expr.** The recursive-descent evaluator against expression trees: every tree written as arguments
evaluates to its meaning, and every argument list that evaluates stands for a tree. What the
operators print on the command line is stated in `ExprLaws`.

**tail.** The buffer that keeps the last lines or bytes of a stream that arrives in pieces.

The modules follow the layers of the programs. Objects that the source changes in place are
classes (`BitWriter.Writer`, `Coder.Coder`, `Matcher.Matcher`, `LzoOptimize.Optimizer`,
`DpkgTables.NameTable`, `DpkgIndex.Index`, `ExprRun.Evaluator`, `Tail.Tailer`), its buffers and tables are arrays, and
its loops are loops. Integers are unbounded where the source cannot leave their width; where it
can, wrap-around is written out. Input is a sequence of pieces of any sizes; the checksum of the
gzip trailer, the search effort, the buffer sizes and the pattern matcher of `expr` are parameters.

Six places where the code does not do what it promises are stated exactly. `tail` compares its
unsigned count as a signed number and counts bytes in `int`: `Tail.Goes` is the condition,
`Tail.Tailer.File` shows that the promise is kept exactly when it holds, and `Tail.Failing` and
`Tail.LongLine` name inputs. A search in a full table of `dpkg` never ends: `OpenTable.SearchEnds`,
`DpkgTables.NameSearchEnds`, `DpkgTables.PackageSearchEnds` and `DpkgDeps.StatusSearchEnds` say
exactly when it does, and `DpkgTables.FullTable` gets there. A blank dependency field of `dpkg` is
used where there is nothing, and a version in parentheses without an operator leaves the operator
unset: `DpkgFields.LineEnds` says exactly when, `DpkgRender.BlankCrashes` and
`DpkgRender.OperatorWrong` name lines. `substr` of `expr` cuts its length to 32 bits
(`ExprValue.SubstringKept`, `ExprValue.LongSubstring`). The length that `deflate` returns is counted
modulo 2^29 (`Flush.FlushBlock`).

## Model

| member | source | states |
|---|---|---|
| Gzip.Zip | busybox-1.24.2/archival/gzip.c:2061-2091 | For every input and every split into reads: the output starts with the fixed header, a decoder of RFC 1951 started behind it gets back exactly the input and stops in the last byte before the trailer, and the trailer holds the checksum and the size modulo 2^32. |
| Deflate.Deflate | busybox-1.24.2/archival/gzip.c:1803-1906 | The bits sent decode to exactly the text read, whatever bits follow, and end in the last byte; the result is the number of bytes modulo 2^29, since bits are counted modulo 2^32; `isize` is the size modulo 2^32. |
| Deflate.Step | busybox-1.24.2/archival/gzip.c:1812-1891 | One turn of the lazy matching loop: the match before is taken exactly if it has three bytes and the one found here is no longer; otherwise the one found here waits and the window moves by one. The loop invariant is kept (the tokens so far spell the text up to the undecided byte, and the undecided match is a true one). Where the chain is no longer than allowed, the match found is the longest that may be sent. |
| Deflate.FindMatch | busybox-1.24.2/archival/gzip.c:1820-1843 | A match longer than the previous one is a match of the text itself, no longer than the lookahead, of length 3 to 258 at a distance of 1 to MAX_DIST, and near enough if it is of length 3. If no more positions within reach have the hash of the current string than may be looked at, no usable match of the text is longer (`LongestOf`). |
| Deflate.FoundLongest | busybox-1.24.2/archival/gzip.c:1824-1843 | After a search that left out nothing, clipped to the lookahead and without a length of 3 that is too far, no match of the text longer than the previous one and within reach is longer than the result. |
| Deflate.NoneFound | busybox-1.24.2/archival/gzip.c:1824-1826 | Where the chain has no head within reach there is no match of three bytes to find. |
| Deflate.SearchedAll | busybox-1.24.2/archival/gzip.c:686-760 | A search that left out nothing returns the greatest length, and of the matches of that length the nearest. |
| Deflate.EndMatch | busybox-1.24.2/archival/gzip.c:1844-1871 | Adopting the previous match adds one token that spells the text behind the undecided byte, puts every string of the match into its chain and leaves nothing undecided. |
| Deflate.TellMatch | busybox-1.24.2/archival/gzip.c:1847-1849 | The token told is the match of the text at the byte before, and the tokens of the block spell the text up to its end. |
| Deflate.PassMatch | busybox-1.24.2/archival/gzip.c:1851-1871 | All strings of the match enter their chains, the window moves behind it, and the block ends there if it must; the tokens sent and kept still spell the text. |
| Deflate.EndLiteral | busybox-1.24.2/archival/gzip.c:1872-1883 | The byte before is told as a literal and the window moves on by one; the tokens spell one byte more. |
| Deflate.Resume | busybox-1.24.2/archival/gzip.c:1894-1900 | Refilling the window between two turns keeps the loop invariant: everything that counts positions moves with a slide, and the text only grows. |
| Deflate.LmInit | busybox-1.24.2/archival/gzip.c:1925-1961 | Afterwards the chains are empty and consistent, the window holds the start of the text, the lookahead suffices or the input has ended, and the rolling hash is that of the first two bytes. |
| Deflate.Finish | busybox-1.24.2/archival/gzip.c:1902-1905 | The last literal and the last block complete a stream that decodes to the whole text and ends in the last byte. |
| Deflate.FlushWindow | busybox-1.24.2/archival/gzip.c:1781-1788 | The bytes handed to the block writer are the text of the block if they are still in the window, and the next block starts at the current position. |
| Telling.Tell | busybox-1.24.2/archival/gzip.c:1570-1621 | A token that stands for the next bytes of the text extends what the block spells by exactly these bytes. |
| Telling.FlushHere | busybox-1.24.2/archival/gzip.c:1781-1788 | After a block a decoder that started at the beginning has the text so far and stands at the end of the bits sent. |
| Telling.FlushLast | busybox-1.24.2/archival/gzip.c:1781-1788 | After the last block the bits sent decode to the whole text. |
| Matcher.Matcher.FillWindow | busybox-1.24.2/archival/gzip.c:622-670 | Positions keep their place in the text across a slide; the window, the chains and the rolling hash stay consistent with the text; nothing read is lost, and more is read unless the input has ended. |
| Matcher.Matcher.Slide | busybox-1.24.2/archival/gzip.c:636-659 | Moving the upper half down keeps the chains consistent and complete: every link still goes to the last earlier position with the same hash. |
| Matcher.Matcher.ReadMore | busybox-1.24.2/archival/gzip.c:661-669 | What is read is appended to the text; the end of the file is noticed exactly when nothing comes. |
| Matcher.Matcher.InsertString | busybox-1.24.2/archival/gzip.c:1796-1801 | The string joins the chain of its hash; the former head, which becomes its link, is the last earlier position with the same 3-byte hash, if there is one. |
| Matcher.Matcher.InsertRest | busybox-1.24.2/archival/gzip.c:1851-1864 | All the strings of a match join their chains, in order. |
| Matcher.FileRead | busybox-1.24.2/archival/gzip.c:511-524 | At most `size` bytes, none only at the end, and what was read and what remains make up the input. |
| Longest.LongestMatch | busybox-1.24.2/archival/gzip.c:686-760 | The positions visited are the links of the chain from its head on, in order, each within MAX_DIST and with the hash of the current string. The search stops only where the next link is at or below the limit, after as many positions as allowed (a quarter of them from `good_match` on, counted unsigned), or with a match of `nice_match` bytes. The length returned is that of a true match at the position returned, longer than the previous length, or it is the previous length; no position visited gives a longer match, and no nearer one a match of that length. |
| Longest.AllLookedAt | busybox-1.24.2/archival/gzip.c:756-757 | A search that came to the end of its chain, or looked at as many positions as there are, has looked at every position within reach that has the hash of the current string. |
| Longest.Gap | busybox-1.24.2/archival/gzip.c:756-757 | Between two links of a chain, and behind the last one within reach, no position has its hash. |
| Longest.Crowded | busybox-1.24.2/archival/gzip.c:756-757 | A search that left out a position within reach with this hash has looked at fewer positions than there are. |
| Longest.NoneLonger | busybox-1.24.2/archival/gzip.c:686-760 | After such a search no position within reach matches more bytes than the best one. |
| Longest.NoneAtAll | busybox-1.24.2/archival/gzip.c:686-760 | If the head of the chain is out of reach, no position within reach matches three bytes. |
| Longest.TryCandidate | busybox-1.24.2/archival/gzip.c:714-755 | A candidate is taken exactly if it matches one byte more than the best so far; leaving out the comparison of the third byte is sound. |
| Longest.MatchLength | busybox-1.24.2/archival/gzip.c:734-746 | The unrolled comparison returns the exact length of the common prefix, up to 258. |
| Window.ChainsInsert | busybox-1.24.2/archival/gzip.c:1796-1801 | Inserting the next string keeps the chains complete: every head is the last position with its hash and every link the last earlier one. |
| Window.ChainsExtend | busybox-1.24.2/archival/gzip.c:661-669 | Bytes read behind what was hashed do not disturb the chains. |
| Window.ChainsSlide | busybox-1.24.2/archival/gzip.c:642-658 | Sliding the window and shifting all heads and links keeps the chains complete for what is left of the window. |
| Hash.Forgets | busybox-1.24.2/archival/gzip.c:1766-1766 | After three bytes the rolling hash does not depend on earlier ones. |
| Hash.RollingStep | busybox-1.24.2/archival/gzip.c:1766-1766 | One update of the rolling hash gives the hash of the next three bytes. |
| Hash.ThirdByte | busybox-1.24.2/archival/gzip.c:728-733 | Equal hashes and equal first two bytes imply equal third bytes. |
| Tokens.CopyMatch | busybox-1.24.2/archival/gzip.c:1847-1849 | A match in a text, overlapping or not, expands to the text. |
| DeflateText.SpellsMatch | busybox-1.24.2/archival/gzip.c:1847-1849 | A usable match extends the text the tokens spell by its length. |
| DeflateText.LeadsOn | busybox-1.24.2/archival/gzip.c:1677-1757 | Blocks compose: if a decoder gets to the end of the bits sent with a text, it gets behind the next block with the text of that block appended. |
| Flush.FlushBlock | busybox-1.24.2/archival/gzip.c:1677-1757 | For every block and whichever form is chosen, a decoder that has the text before gets the text of the block from the bits sent and stops exactly at their end; after the last block the byte is completed; the result is the number of bytes so far modulo 2^29. |
| Flush.StoredCount | busybox-1.24.2/archival/gzip.c:1730-1732 | After a stored block the 32-bit `compressed_len` is still the number of bits sent modulo 2^32, with the padding. |
| Flush.LastByte | busybox-1.24.2/archival/gzip.c:1749-1756 | The seven bits added before the shift make the count that of the whole bytes, modulo 2^29. |
| Flush.SendBlock | busybox-1.24.2/archival/gzip.c:1699-1746 | The form chosen is never more than 17 bits longer than the static or the dynamic form, nor longer than the stored one if the bytes are there; it decodes to the block; `compressed_len` grows by exactly the bits sent. |
| Flush.ChoiceIsShort | busybox-1.24.2/archival/gzip.c:1699-1739 | What the three tests choose has one of the least lengths in bytes; stored is chosen only where four bytes more than the data are no longer than the static form. |
| Flush.StoredOk | busybox-1.24.2/archival/gzip.c:1722-1734 | A stored block that is chosen has fewer than 65536 bytes. |
| StoredFits.StoredIsShort | busybox-1.24.2/archival/gzip.c:1722-1734 | With fewer than 32768 tokens and the TOO_FAR rule, a block for which storing is no longer than the static form has at most 65519 bytes, so its length fits 16 bits. |
| Flush.SendStored | busybox-1.24.2/archival/gzip.c:1730-1734 | A stored block is sent: its kind, zero bits up to the byte, the length, its complement and the bytes. |
| Flush.SendStatic | busybox-1.24.2/archival/gzip.c:1735-1738 | The block goes out with the fixed codes. |
| Flush.SendDynamic | busybox-1.24.2/archival/gzip.c:1739-1744 | The block goes out with its own codes behind the header that describes them. |
| Flush.EndStream | busybox-1.24.2/archival/gzip.c:1749-1752 | Only zero bits up to the byte boundary are added. |
| BlockForms.StoredMeans | busybox-1.24.2/archival/gzip.c:1730-1734 | Reading a stored block back gives the bytes, at any position and whatever follows. |
| BlockForms.StaticMeans | busybox-1.24.2/archival/gzip.c:1735-1738 | Reading a static block back gives the text its tokens stand for, and stops at its end. |
| BlockForms.DynMeans | busybox-1.24.2/archival/gzip.c:1739-1744 | Reading a dynamic block back gives the text its tokens stand for, and stops at its end. |
| FlushTrees.BuildTrees | busybox-1.24.2/archival/gzip.c:1684-1697 | `opt_len` and `static_len` equal the number of bits the dynamic form (header included) and the static form take, exactly, including forced codes and extra bits. |
| FlushTrees.BuildBoth | busybox-1.24.2/archival/gzip.c:1684-1692 | Both trees code every token and the end of the block, and what was billed equals the length of the data in either code. |
| FlushTrees.BuildBlTree | busybox-1.24.2/archival/gzip.c:1506-1533 | Every run-length symbol has a code, trailing unused lengths are dropped down to four, and the bill for the header equals its length. |
| BlockTrees.LastRank | busybox-1.24.2/archival/gzip.c:1520-1527 | The last rank in use, not below 3: no code of a later rank is lost. |
| BlockTrees.HeaderPrice | busybox-1.24.2/archival/gzip.c:1506-1533 | The bits of the run-length coded lengths equal the cost of the symbols counted. |
| BlockTrees.SomeLength | busybox-1.24.2/archival/gzip.c:1520-1527 | A tree with a code in it needs a length symbol and not only repeats, so that the loop over the ranks ends. |
| BlockTrees.TreesCode | busybox-1.24.2/archival/gzip.c:1684-1692 | Trees built for the symbols of a block code all its tokens, at the price billed. |
| BlockCost.DataPrice | busybox-1.24.2/archival/gzip.c:1626-1669 | The length of a block of data is the sum of the prices of its symbols. |
| BlockCost.BilledCost | busybox-1.24.2/archival/gzip.c:1183-1194 | The bill of a tree is the cost of the symbols counted, in its own code and in the static one. |
| Compress.CompressBlock | busybox-1.24.2/archival/gzip.c:1626-1669 | Every token recorded goes out in order, each as its code with its extra bits, and the end of the block. |
| Compress.NextToken | busybox-1.24.2/archival/gzip.c:1637-1666 | Walking the three buffers and the flag bytes gives back the tokens in the order they were recorded. |
| Compress.SendLength | busybox-1.24.2/archival/gzip.c:1645-1652 | A match length goes out as the code and the extra bits of the standard. |
| Compress.SendDist | busybox-1.24.2/archival/gzip.c:1653-1663 | A distance goes out as the code and the extra bits of the standard. |
| BlockCode.TokenBack | busybox-1.24.2/archival/gzip.c:1626-1669 | Reading a token that was sent gives the token. |
| BlockCode.DataBack | busybox-1.24.2/archival/gzip.c:1626-1669 | Reading the data of a block gives the text its tokens expand to, and stops behind the end of the block. |
| Coder.Coder.CtTally | busybox-1.24.2/archival/gzip.c:1570-1621 | The token is appended to the record, its symbols are counted, and a flush is asked for exactly if the buffers are full or the guess says so. |
| Coder.Coder.KeepToken | busybox-1.24.2/archival/gzip.c:1572-1597 | The literal, the distance and the flag bit are put where the reader of the record finds them. |
| Coder.Coder.KeepFlag | busybox-1.24.2/archival/gzip.c:1588-1597 | The flag bit of the token joins the byte being filled, which goes to its buffer with the eighth. |
| Coder.Coder.CountToken | busybox-1.24.2/archival/gzip.c:1573-1585 | The frequencies stay those of the symbols of the tokens so far and of one end of block. |
| Coder.Coder.GuessEnd | busybox-1.24.2/archival/gzip.c:1598-1615 | The early end is decided from the counts as the rule says. |
| Coder.Coder.InitBlock | busybox-1.24.2/archival/gzip.c:1082-1099 | An empty record with only the end of the block counted. |
| BuildTree.BuildTree | busybox-1.24.2/archival/gzip.c:1304-1386 | For the frequencies given: a complete canonical code within the length limit for every symbol in use, with its exact bill. If two symbols are in use, only symbols in use have a code, and the lengths are optimal among all lengths that obey the Kraft inequality if and only if some optimal lengths are within the limit; this holds whenever the frequencies add up to less than the Fibonacci number of the limit plus three. With one symbol in use or none, exactly two known symbols have a code, of one bit. A more frequent symbol never has a longer code. |
| BuildTree.IsBest | busybox-1.24.2/archival/gzip.c:1304-1386 | What holds of the lengths for the frequencies with forced symbols holds for the frequencies given, or two symbols share one bit each. |
| BuildTree.MergeAll | busybox-1.24.2/archival/gzip.c:1352-1377 | The merge loop leaves a forest of one tree whose every merge joined two nodes of least frequency, listed at the end of the heap. |
| BuildTree.Heapify | busybox-1.24.2/archival/gzip.c:1346-1350 | The heap order holds for all nodes. |
| HuffMerge.MergeOne | busybox-1.24.2/archival/gzip.c:1355-1375 | The two nodes taken are the least frequent ones and the father replaces them. |
| HuffMerge.PqRemove | busybox-1.24.2/archival/gzip.c:1297-1302 | The node removed is the least frequent one, and the rest is a heap. |
| HuffHeap.PqDownHeap | busybox-1.24.2/archival/gzip.c:1115-1137 | The heap order is restored and the nodes are permuted, none lost. |
| HuffInit.CollectLeaves | busybox-1.24.2/archival/gzip.c:1317-1327 | The heap lists exactly the symbols in use, and `max_code` is the largest of them. |
| HuffInit.ForceCodes | busybox-1.24.2/archival/gzip.c:1329-1344 | At least two codes exist; nothing is forced where two symbols are in use, and otherwise exactly the symbols named are; both bills are lowered by what the forced symbols will be billed. |
| HuffInit.Kinds | busybox-1.24.2/archival/gzip.c:1329-1344 | Two symbols are in use, or exactly one, or none. |
| HuffResult.ForcedBill | busybox-1.24.2/archival/gzip.c:1334-1343 | The corrections for forced codes leave exactly the bill for the real symbols. |
| HuffOptimal.MergeStep | busybox-1.24.2/archival/gzip.c:1355-1377 | With two least nodes (by frequency, then by height) merged, a lower bound on cost and on the height reached at that cost gives one without: the exchange argument over all lengths that obey the Kraft inequality. |
| HuffOptimal.SplitStep | busybox-1.24.2/archival/gzip.c:1355-1377 | Lengths that reach the bound with two nodes merged give lengths that reach it without. |
| HuffOptimal.Exchange | busybox-1.24.2/archival/gzip.c:1355-1377 | Giving the longer code to the lower of two nodes is no worse in cost and height, and cheaper if they differ in frequency and in length. |
| HuffResult.TreeBound | busybox-1.24.2/archival/gzip.c:1304-1386 | The tree of the merges costs the least of all codes for its symbols, and no code of that cost is less high. |
| HuffResult.BestCode | busybox-1.24.2/archival/gzip.c:1304-1386 | Lengths within the limit that cost what the merges cost wherever the tree fits are optimal exactly if some optimal lengths fit. |
| HuffResult.FitsHeight | busybox-1.24.2/archival/gzip.c:1173-1182 | No node is deeper than the limit exactly if the height recorded at the root is within it. |
| HuffResult.OptimalMonotone | busybox-1.24.2/archival/gzip.c:1304-1386 | Optimal lengths never increase with the frequency. |
| HuffBound.ForestBound | busybox-1.24.2/archival/gzip.c:1352-1377 | At every stage of the merging, no code for the nodes on the heap beats the merges still to come, in cost and then in height, and one is as good. |
| HuffHeight.RankedStep | busybox-1.24.2/archival/gzip.c:1364-1370 | The byte `depth` holds the height of every node after a merge, without wrapping round, and nodes leave the heap by frequency and then height. |
| HuffHeight.LowTree | busybox-1.24.2/archival/gzip.c:1364-1370 | No tree over frequencies that add up to less than 65536 is higher than 22. |
| HuffResult.FallingMonotone | busybox-1.24.2/archival/gzip.c:1216-1234 | Lengths that fall along the list of removals never increase with the frequency. |
| HuffPass.RoomsBalance | busybox-1.24.2/archival/gzip.c:1173-1186 | Each clamped node adds exactly one unit to the room in use, so the overflow is twice the Kraft excess. |
| HuffPass.CostsBalance | busybox-1.24.2/archival/gzip.c:1173-1191 | The cost of all leaves is the sum of the frequencies of all merged nodes. |
| GenBitlen.GenBitlen | busybox-1.24.2/archival/gzip.c:1150-1235 | The lengths of a complete code within the limit, with its bill; if no node lies deeper than the limit the cost is that of the merges, and otherwise the lengths fall along the list of removals. |
| GenBitlen.FirstPass | busybox-1.24.2/archival/gzip.c:1165-1195 | Every node gets one more than its father, at most the limit; counts, overflow and bills agree with these lengths. |
| GenBitlen.RepairLengths | busybox-1.24.2/archival/gzip.c:1196-1234 | After the repair the code is complete, the counts match the lengths, and the bill is corrected. |
| Overflow.Repair | busybox-1.24.2/archival/gzip.c:1202-1214 | The loop ends, the number of leaves stays, no count becomes negative, and Kraft equality is restored exactly. |
| Overflow.LastUsed | busybox-1.24.2/archival/gzip.c:1204-1206 | A length in use below the limit is found, the longest one. |
| Reassign.AssignAll | busybox-1.24.2/archival/gzip.c:1216-1234 | As many codes of each length as counted are handed out, none longer than that of a less frequent symbol, and the bill is corrected by the difference. |
| Reassign.AssignBits | busybox-1.24.2/archival/gzip.c:1222-1233 | The codes of one length go to the next symbols of the list. |
| Canonical.GenCodes | busybox-1.24.2/archival/gzip.c:1246-1279 | Every used symbol gets the canonical code of section 3.2.2 of RFC 1951, reversed. |
| Canonical.FirstCodes | busybox-1.24.2/archival/gzip.c:1253-1258 | The first code of every length is the canonical one, within 16 bits. |
| Canonical.CodeInWidth | busybox-1.24.2/archival/gzip.c:1259-1272 | No code leaves its bit width. |
| Canonical.PrefixFree | busybox-1.24.2/archival/gzip.c:1246-1279 | No code is a prefix of another. |
| Canonical.ReadBack | busybox-1.24.2/archival/gzip.c:1246-1279 | Reading a code gives the symbol it was made for. |
| Canonical.BiReverse | busybox-1.24.2/archival/gzip.c:559-569 | Sending the result low bit first is sending the argument high bit first. |
| Canonical.ReversedSends | busybox-1.24.2/archival/gzip.c:1271-1272 | What is stored for a symbol sends its canonical code. |
| RunLengths.RunsDecode | busybox-1.24.2/archival/gzip.c:1395-1499 | The run-length symbols decode to exactly the lengths, whatever lengths come before. |
| RunLengths.FlushDecodes | busybox-1.24.2/archival/gzip.c:1465-1487 | A flushed run decodes to the run. |
| TreeScan.ScanTree | busybox-1.24.2/archival/gzip.c:1395-1441 | The frequencies counted are those of the symbols sent later. |
| TreeScan.ScanRun | busybox-1.24.2/archival/gzip.c:1417-1429 | Counting one run counts the symbols that will be sent for it. |
| TreeSend.SendTree | busybox-1.24.2/archival/gzip.c:1448-1499 | The symbols for the lengths go out, with their extra bits. |
| TreeSend.SendRun | busybox-1.24.2/archival/gzip.c:1467-1487 | The symbols of one run go out. |
| TreeSend.SendAllTrees | busybox-1.24.2/archival/gzip.c:1541-1563 | The whole header of a dynamic block goes out. |
| TreeSend.SendCode | busybox-1.24.2/archival/gzip.c:1061-1067 | The code of a symbol is appended, high bit first. |
| HeaderCode.HeaderBack | busybox-1.24.2/archival/gzip.c:1541-1563 | After the header of a dynamic block a decoder reads the data with exactly the codes it describes. |
| HeaderCode.LensBack | busybox-1.24.2/archival/gzip.c:1448-1499 | Both sequences of lengths are read back, also where a run crosses from one to the other. |
| HeaderCode.RunsBack | busybox-1.24.2/archival/gzip.c:1448-1499 | Reading run-length coded lengths gives what the symbols decode to. |
| Tallies.CostIsDot | busybox-1.24.2/archival/gzip.c:1183-1194 | Billing frequencies times prices is adding the prices symbol by symbol. |
| Tables.InitLengths | busybox-1.24.2/archival/gzip.c:1984-1997 | The code looked up for every match length is the one of the standard. |
| Tables.InitDists | busybox-1.24.2/archival/gzip.c:1999-2015 | The code looked up for every distance is the one of the standard. |
| Symbols.LengthRanges | busybox-1.24.2/archival/gzip.c:1984-1997 | The length codes cover 3 to 258 in consecutive ranges with the bases of the standard. |
| Symbols.DistRanges | busybox-1.24.2/archival/gzip.c:1999-2015 | The distance codes cover 1 to 32768 in consecutive ranges with the bases of the standard. |
| Symbols.LengthCodeOk | busybox-1.24.2/archival/gzip.c:1984-1997 | The code of a length stands for that length with extra bits that fit. |
| Symbols.DistCodeOk | busybox-1.24.2/archival/gzip.c:1070-1071 | The code of a distance stands for that distance with extra bits that fit. |
| StaticTrees.InitTables | busybox-1.24.2/archival/gzip.c:1970-2053 | All tables describe the fixed codes and the ranges of the standard. |
| StaticTrees.InitStaticLtree | busybox-1.24.2/archival/gzip.c:2018-2043 | The codes of the static literal tree are the fixed codes of section 3.2.6 of RFC 1951. |
| StaticTrees.InitStaticDtree | busybox-1.24.2/archival/gzip.c:2045-2049 | The static distance codes are the fixed codes. |
| StaticTrees.FixedLitOk | busybox-1.24.2/archival/gzip.c:2022-2043 | The fixed literal code is complete. |
| Standard.FixedCodes | busybox-1.24.2/archival/gzip.c:2018-2043 | The code of every symbol is the one in the table of section 3.2.6 of RFC 1951. |
| Standard.RanksByFormula | busybox-1.24.2/archival/gzip.c:876-877 | The order of the code lengths: the three repeats, zero, and then outwards from 8. |
| Standard.ExtraByFormula | busybox-1.24.2/archival/gzip.c:858-869 | The extra bits grow by one every four length codes and every two distance codes; 258 has a code of its own. |
| Standard.RunSymbols | busybox-1.24.2/archival/gzip.c:1395-1499 | Symbols 16, 17 and 18 repeat the last length 3 to 6 times and zero 3 to 10 or 11 to 138 times, all of which they can say. |
| Standard.LiteralInflates | busybox-1.24.2/archival/gzip.c:1735-1738 | Bits written down from the standard, a static block with one literal, inflate to the literal. |
| Standard.StoredInflates | busybox-1.24.2/archival/gzip.c:1730-1734 | Bits written down from the standard, a stored block of one byte, inflate to the byte. |
| BitWriter.Writer.SendBits | busybox-1.24.2/archival/gzip.c:531-551 | Flushed bytes, buffer and accumulator together gain exactly the bits of the value, low bit first; the buffer never fills up. |
| BitWriter.Writer.Windup | busybox-1.24.2/archival/gzip.c:575-587 | Only zero bits up to the byte boundary are added. |
| BitWriter.Writer.CopyBlock | busybox-1.24.2/archival/gzip.c:594-611 | The stream is aligned, and gets the length, its complement and the bytes. |
| BitWriter.Writer.Put16 | busybox-1.24.2/archival/gzip.c:452-487 | Two bytes, the low one first, on either path through the buffer. |
| BitWriter.Writer.Put32 | busybox-1.24.2/archival/gzip.c:489-493 | Four bytes, the low one first. |
| BitWriter.Writer.PutByte | busybox-1.24.2/archival/gzip.c:444-449 | One byte more, flushed or not. |
| BitWriter.Writer.FlushOutbuf | busybox-1.24.2/archival/gzip.c:431-438 | Everything is written and the buffer is empty. |
| LzoOptimize.Optimize | busybox-1.24.2/archival/lzop.c:123-374 | For every well-formed stream: length and decoded bytes of the stream are unchanged by the rewriting in place, and the decoded bytes are left in `out`; the status says whether the stream ended with the input. |
| LzoOptimize.Optimizer.JoinToPrevious | busybox-1.24.2/archival/lzop.c:203-212 | The match becomes literals of the instruction before: the stream still leads to the same text. |
| LzoOptimize.Optimizer.JoinToNext | busybox-1.24.2/archival/lzop.c:213-237 | The literals before, the match and the run behind become one run: the stream still leads to the same text. |
| LzoOptimize.Optimizer.JoinTwoRuns | busybox-1.24.2/archival/lzop.c:257-273 | Two runs and the match between them become one run: the stream still leads to the same text. |
| LzoOptimize.Optimizer.LiteralRun | busybox-1.24.2/archival/lzop.c:153-177 | A run is copied to the text as the decoder does. |
| LzoOptimize.Optimizer.ShortMatch | busybox-1.24.2/archival/lzop.c:178-241 | Every case of a match behind literals keeps what the stream leads to. |
| LzoOptimize.Optimizer.OtherMatch | busybox-1.24.2/archival/lzop.c:242-344 | Every other instruction keeps what the stream leads to, and the end is found where the decoder finds it. |
| LzoOptimize.CopyOver | busybox-1.24.2/archival/lzop.c:92-115 | The bytes written over the match are those the match adds to the text, also when it overlaps itself. |
| LzoOptimize.MatchHeader | busybox-1.24.2/archival/lzop.c:243-301 | Length and distance are those the decoder reads. |
| LzoRewrite.SetCount | busybox-1.24.2/archival/lzop.c:206-208 | Changing the two low bits changes the number of literals and nothing else. |
| LzoRewrite.JoinBefore | busybox-1.24.2/archival/lzop.c:306-315 | On the rewritten bytes one decoder step does what two did. |
| LzoRewrite.JoinBoth | busybox-1.24.2/archival/lzop.c:316-338 | On the rewritten bytes two decoder steps do what three did. |
| LzoRewrite.JoinRuns | busybox-1.24.2/archival/lzop.c:257-273 | On the rewritten bytes one decoder step does what three did. |
| LzoState.ReachedMeans | busybox-1.24.2/archival/lzop.c:123-374 | In every state of the loop the stream as it is decodes to what the original stream decodes to. |
| LzoWrite.StreamDecodes | busybox-1.24.2/archival/lzop.c:123-374 | For every list of instructions of the format, after up to 238 first literals: the bytes written for it decode to the text the instructions make, and the decoder stops at their end. |
| LzoWrite.InstructionSteps | busybox-1.24.2/archival/lzop.c:148-344 | At its bytes one step of the decoder does what an instruction says: appends its literals, or the match and its literals. |
| LzoWrite.InstructionParses | busybox-1.24.2/archival/lzop.c:178-301 | Every instruction is read back from its bytes: runs, short matches behind literals, near matches (3 to 8 bytes, up to 2048 back), matches up to 16384 back and farther ones up to 49151, with 0 to 3 literals. |
| LzoWrite.EndStops | busybox-1.24.2/archival/lzop.c:286-299 | At the three bytes of the end the decoder stops behind them. |
| LzoWrite.KnownStream | busybox-1.24.2/archival/lzop.c:243-247 | One stream byte by byte: nine letters, then three bytes from nine back. |
| Adler.Adler32 | busybox-1.24.2/archival/lzop.c:487-514 | The result is the byte-by-byte checksum of section 2.2 of RFC 1950, from any 32-bit value; 1 without a buffer. |
| Adler.AddChunk | busybox-1.24.2/archival/lzop.c:503-512 | Delaying the modulus over one chunk gives the reduced sums. |
| Adler.ChunkFits | busybox-1.24.2/archival/lzop.c:490-495 | No sum overflows 32 bits within NMAX bytes, and NMAX is the largest such number for reduced sums. |
| Adler.ChecksumAppend | busybox-1.24.2/archival/lzop.c:487-514 | The checksum of a whole is the checksum of its end gone on from that of its beginning. |
| Adler.LargestPrime | busybox-1.24.2/archival/lzop.c:491-491 | The modulus is a prime, and every number between it and 65536 is composite. |
| Adler.KnownChecksum | busybox-1.24.2/archival/lzop.c:487-514 | The checksum of the letters abc. |
| Probe.AllVisited | busybox-1.24.2/archival/dpkg.c:169-186 | Within as many probes as the prime every slot is visited. |
| Probe.AddrsDiffer | busybox-1.24.2/archival/dpkg.c:169-186 | No slot is visited twice in as many probes as the prime. |
| Probe.IsPrime | busybox-1.24.2/archival/dpkg.c:85-116 | The three table sizes are primes. |
| OpenTable.MakeHash | busybox-1.24.2/archival/dpkg.c:169-186 | Start and step are those of the hash, in range. |
| OpenTable.SearchEnds | busybox-1.24.2/archival/dpkg.c:189-227 | A search ends if and only if a slot is free or holds what is searched for. |
| OpenTable.Missed | busybox-1.24.2/archival/dpkg.c:189-227 | A search that stops at a free slot has missed nothing on the path. |
| DpkgTables.NameTable.Intern | busybox-1.24.2/archival/dpkg.c:189-206 | The slot of the name, which is added if new; nothing moves and no two slots hold the same name. |
| DpkgTables.NameTable.InternAll | busybox-1.24.2/archival/dpkg.c:189-206 | Over any run of searches there is room for: two names share an index exactly if they are equal, and no index ever changes its name. |
| DpkgTables.NameSearchEnds | busybox-1.24.2/archival/dpkg.c:189-206 | A search for a name ends exactly if a slot is free or the name is there. |
| DpkgTables.FullTable | busybox-1.24.2/archival/dpkg.c:189-206 | A full table is reached by searches for different names, and then a search for any longer name never ends. |
| DpkgTables.PackageSearchEnds | busybox-1.24.2/archival/dpkg.c:356-377 | A search for a package ends exactly if a slot is free or holds a match. |
| DpkgTables.SearchPackage | busybox-1.24.2/archival/dpkg.c:356-377 | A matching package is found if and only if one is stored anywhere in the table; else the slot is free and on the path of the name. |
| DpkgTables.StorePackage | busybox-1.24.2/archival/dpkg.c:685-688 | The package replaces one of the same name and an equal version, or takes a free slot; the table stays searchable. |
| DpkgTables.PackagesStay | busybox-1.24.2/archival/dpkg.c:189-206 | Adding names keeps the package table searchable. |
| DpkgDeps.StatusSearchEnds | busybox-1.24.2/archival/dpkg.c:211-227 | A search for a status ends exactly if a slot is free or the name has an entry. |
| DpkgDeps.SearchStatus | busybox-1.24.2/archival/dpkg.c:211-227 | Whenever the search ends, the entry of the name is found if and only if there is one; else the slot is free and on the path of the name. |
| DpkgDeps.StoreStatus | busybox-1.24.2/archival/dpkg.c:788-790 | An entry replaces that of the same name or takes a free slot; the table stays searchable. |
| Version.VersionComparePart | busybox-1.24.2/archival/dpkg.c:240-277 | The sign of the result is that of the lexicographic comparison of keys: characters by their order, digit runs by value, the end between tilde and everything else. |
| Version.VersionCompare | busybox-1.24.2/archival/dpkg.c:283-334 | The sign of the result is that of epoch, upstream part and revision compared in this order; what the parts are and which decides is stated on texts in `VersionLaws`. |
| Version.TakeEpoch | busybox-1.24.2/archival/dpkg.c:295-304 | The epoch is the number before the first colon, cut to 32 bits, or zero without one; the rest is what is split further. |
| Version.ChopRevision | busybox-1.24.2/archival/dpkg.c:317-324 | The revision is what follows the last hyphen, and nothing without one. |
| VersionLaws.SplitFull | busybox-1.24.2/archival/dpkg.c:295-324 | A decimal epoch, a colon, any upstream part, a hyphen and a revision without hyphens are read back as these three. |
| VersionLaws.SplitNoRevision | busybox-1.24.2/archival/dpkg.c:295-324 | Without a hyphen all behind the epoch is the upstream part. |
| VersionLaws.SplitNoEpoch | busybox-1.24.2/archival/dpkg.c:295-324 | Without a colon the epoch is zero. |
| VersionLaws.SplitPlain | busybox-1.24.2/archival/dpkg.c:295-324 | Without colon and hyphen all is upstream part. |
| VersionLaws.EpochDecides | busybox-1.24.2/archival/dpkg.c:305-310 | The smaller epoch makes the older version, whatever follows. |
| VersionLaws.UpstreamDecides | busybox-1.24.2/archival/dpkg.c:312-333 | With equal epochs the upstream parts decide if they differ, whatever the revisions, and else the revisions. |
| VersionLaws.PlainDecides | busybox-1.24.2/archival/dpkg.c:312-333 | The same without epochs. |
| VersionLaws.NumbersByValue | busybox-1.24.2/archival/dpkg.c:257-274 | Decimal numbers compare as their values. |
| VersionLaws.CharactersDecide | busybox-1.24.2/archival/dpkg.c:229-255 | Behind any common beginning the first two characters that are no digits decide: tilde first, then letters, then all others. |
| VersionLaws.EndFirst | busybox-1.24.2/archival/dpkg.c:229-255 | The end comes before any character but a tilde. |
| VersionLaws.TildeOlder | busybox-1.24.2/archival/dpkg.c:229-255 | A version with a tilde and anything behind it is older than without. |
| Version.Reflexive | busybox-1.24.2/archival/dpkg.c:283-334 | A version compares equal to itself. |
| Version.Antisymmetric | busybox-1.24.2/archival/dpkg.c:283-334 | Swapping the versions swaps the sign. |
| Version.Transitive | busybox-1.24.2/archival/dpkg.c:283-334 | The comparison is transitive, and strict if one of the two steps is. |
| Version.TildeFirst | busybox-1.24.2/archival/dpkg.c:229-237 | A tilde sorts before the end of a part. |
| Version.CompareNumbers | busybox-1.24.2/archival/dpkg.c:257-274 | Numbers are compared by value, leading zeros apart. |
| Version.CompareText | busybox-1.24.2/archival/dpkg.c:248-255 | Characters up to the next numbers are compared one by one in their order. |
| Version.TestVersion | busybox-1.24.2/archival/dpkg.c:336-354 | The operator holds of the two versions in this order; which way it goes is stated on texts in `DpkgLaws`. |
| DpkgLaws.SmallerFulfils | busybox-1.24.2/archival/dpkg.c:336-354 | Of decimal numbers m < n, `<<`, `<` and `<=` hold, and `>>`, `>`, `>=` and `=` do not. |
| DpkgLaws.LargerFulfils | busybox-1.24.2/archival/dpkg.c:336-354 | Of decimal numbers m > n, `>>`, `>` and `>=` hold, and the others do not. |
| DpkgLaws.SameFulfils | busybox-1.24.2/archival/dpkg.c:336-354 | Of a version and itself exactly `=`, `<=` and `>=` hold. |
| DpkgLaws.TildeFulfils | busybox-1.24.2/archival/dpkg.c:336-354 | A version with a tilde behind it is `<<` the one without, and not `>=` it. |
| DpkgPass.Database.CheckDeps | busybox-1.24.2/archival/dpkg.c:1065-1177 | The pass gets through if and only if for every package wanted installed each dependency group has an alternative met by a package of the right version or by a provider. |
| DpkgPass.Database.CheckEdges | busybox-1.24.2/archival/dpkg.c:1096-1176 | The loop with its counts of alternatives to skip decides exactly whether every group of one package has an alternative that is met. |
| DpkgPass.Database.EdgeMet | busybox-1.24.2/archival/dpkg.c:1113-1147 | An alternative is met by a package of the right version or by a provider. |
| DpkgPass.Database.SearchForProvides | busybox-1.24.2/archival/dpkg.c:395-408 | The next package after the start that provides the name, and none before it. |
| DpkgPass.Database.PackageSatisfies | busybox-1.24.2/archival/dpkg.c:963-978 | The status of the package is one the kind of dependency accepts: `install` as its first word, or `installed` as its third; only names are added to the tables. |
| DpkgPass.Database.StatusAccepts | busybox-1.24.2/archival/dpkg.c:692-712 | The words are looked up in the table of names, which adds new ones; comparing the slots is comparing the words, and room for the words still to come is left. |
| DpkgGrown.GrownMet | busybox-1.24.2/archival/dpkg.c:1113-1147 | Whether a dependency is met does not change when the pass adds names. |
| DpkgGrown.WordAdded | busybox-1.24.2/archival/dpkg.c:189-206 | Looking up a word leaves room for all the words still to come. |
| DpkgPass.GetStatus | busybox-1.24.2/archival/dpkg.c:692-712 | The word of that number, which ends at a blank or at the end of the line. |
| DpkgCheck.Words | busybox-1.24.2/archival/dpkg.c:692-712 | Of three words with blanks between them the first and the third are found. |
| DpkgCheck.Statuses | busybox-1.24.2/archival/dpkg.c:963-978 | What the usual statuses satisfy: `install ok installed` both kinds, `install ok unpacked` one, `deinstall ok config-files` none. |
| DpkgFields.AddSplitDependencies | busybox-1.24.2/archival/dpkg.c:429-519 | The edges are those of the groups of the line, in order; or reading stops at the first field that has no alternative, or at the first alternative with an unknown operator or with a version and no operator. |
| DpkgFields.LineEnds | busybox-1.24.2/archival/dpkg.c:429-519 | For every line: it is read exactly if it has a field and all are sound; a token that is not there is used exactly if it has no field or its first field that is not sound is blank; an illegal operator ends the program exactly if that field has one before any other fault; an operator is left unset exactly if that field has a version without one before any other fault. |
| DpkgFields.FirstDecides | busybox-1.24.2/archival/dpkg.c:429-519 | The first field that is not sound decides what becomes of the line. |
| DpkgFields.GroupsFormed | busybox-1.24.2/archival/dpkg.c:429-519 | What a field becomes is a list of groups in the form the dependency pass reads: each counted group is followed by that many alternatives. |
| DpkgRender.LineBack | busybox-1.24.2/archival/dpkg.c:429-519 | Every list of groups of alternatives, written out with commas, bars and relations in parentheses, is read back as its edges, each group of several after an edge that counts them. |
| DpkgRender.AltBack | busybox-1.24.2/archival/dpkg.c:459-503 | An alternative with its relation and version is read back, whatever blanks are around it. |
| DpkgRender.BlankCrashes | busybox-1.24.2/archival/dpkg.c:436-464 | Lines that go wrong: an empty one, and any name with a comma and a blank behind it. |
| DpkgRender.OperatorWrong | busybox-1.24.2/archival/dpkg.c:459-500 | Lines that stop: any name with a version in parentheses and no operator, or with an operator that is not known. |
| DpkgRecords.ReplaceBoth | busybox-1.24.2/archival/dpkg.c:685-688 | Two entries that a third replaces replace one another: at most one package gives way to a new one. |
| DpkgLink.SameAnswer | busybox-1.24.2/archival/dpkg.c:1065-1177 | If the tables stand for the entries of a status file, the pass decides whether among the entries, taken as text, every dependency of every wanted one is met. |
| DpkgLink.MetSame | busybox-1.24.2/archival/dpkg.c:1113-1147 | A dependency is met in the tables exactly if it is met by the entries. |
| DpkgState.PackageLoaded | busybox-1.24.2/archival/dpkg.c:684-689 | A package in the slot the search found keeps the table standing for the entries: the last of those with one name and an equal version. |
| DpkgState.StatusLoaded | busybox-1.24.2/archival/dpkg.c:776-791 | A status in the slot the search found keeps the table standing for the entries: the last of those with one name. |
| DpkgLoad.EdgesFormed | busybox-1.24.2/archival/dpkg.c:629-678 | The edges of all fields of an entry are groups, as the pass reads them. |
| DpkgLoad.ReadFields | busybox-1.24.2/archival/dpkg.c:630-678 | The edges of an entry are those of its fields in order, or reading ends at the first that goes wrong. |
| DpkgIndex.Index.Add | busybox-1.24.2/archival/dpkg.c:766-795 | One more entry: names are interned, its package and its status are stored, and the tables stand for the entries so far and this one, unless it has no version. |
| DpkgIndex.CheckStatusFile | busybox-1.24.2/archival/dpkg.c:766-795 | From the entries to the answer: if some field cannot be read, reading stops at the first entry with such a field, for the reason that field gives; otherwise the pass gets through exactly if every dependency of every wanted entry is met by the entries. |
| DpkgExample.TwoFiles | busybox-1.24.2/archival/dpkg.c:1065-1177 | An installed package that depends on another passes with that one installed and fails without it. |
| DpkgLaws.VersionFiles | busybox-1.24.2/archival/dpkg.c:1065-1177 | An installed package that depends on another of a smaller, a larger or the same version: the file passes with the one that fits and fails with those that do not. |
| DpkgLaws.OneVersion | busybox-1.24.2/archival/dpkg.c:1065-1177 | For every operator and all numbers as versions the file passes exactly if the operator holds of them. |
| DpkgLaws.VersionDecides | busybox-1.24.2/archival/dpkg.c:459-503 | With one dependency on a version, written out as text, the entries satisfy it exactly if the version there compares as the operator says. |
| DpkgLaws.TextDecides | busybox-1.24.2/archival/dpkg.c:459-503 | The same for every relation as it is typed, with versions m < n. |
| ExprRun.ExprMain | busybox-1.24.2/coreutils/expr.c:519-538 | On every argument list the program ends; it prints the value of the tree the arguments stand for, or fails, exactly if they stand for none or the tree is an error. |
| ExprRun.TreesRun | busybox-1.24.2/coreutils/expr.c:501-538 | Every tree, written as arguments with parentheses where precedence needs them, makes the program print its value or fail with its error. |
| ExprRun.Evaluator.RunLevel | busybox-1.24.2/coreutils/expr.c:385-516 | The loops of all six levels compute the specification and leave the cursor behind what they used. |
| ExprRun.Evaluator.Run6 | busybox-1.24.2/coreutils/expr.c:320-380 | The keywords compute the specification, the cut of the length of `substr` to 32 bits included, and leave the cursor behind what they used. |
| ExprRun.Evaluator.Run7 | busybox-1.24.2/coreutils/expr.c:296-316 | Parentheses and operands compute the specification and leave the cursor behind what they used. |
| ExprParse.ReadRender | busybox-1.24.2/coreutils/expr.c:296-516 | A tree written as arguments is read back, whatever follows that cannot continue it: precedence and left association. |
| ExprParse.EvalFollows | busybox-1.24.2/coreutils/expr.c:296-516 | Evaluating while reading is reading and then evaluating, for every argument list, errors included. |
| ExprParse.EvalRender | busybox-1.24.2/coreutils/expr.c:296-516 | A tree written as arguments evaluates to its value or its error and uses up exactly those arguments. |
| ExprValue.Calculates | busybox-1.24.2/coreutils/expr.c:196-245 | On numbers given as text the operators compute the sum, difference, product and relations of the numbers, and `\|`, `&` and `:` what they should; they fail exactly on division by zero and on results that do not fit. |
| ExprLaws.OrRuns | busybox-1.24.2/coreutils/expr.c:501-516 | `x \| y` prints x unless it is empty or zero, and then y; the status is 1 exactly if both are. |
| ExprLaws.AndRuns | busybox-1.24.2/coreutils/expr.c:480-497 | `x & y` prints x if neither is empty or zero, and else 0 with status 1. |
| ExprLaws.NullResults | busybox-1.24.2/coreutils/expr.c:480-516 | `\|` is null exactly if both operands are, `&` exactly if one is. |
| ExprLaws.NullText | busybox-1.24.2/coreutils/expr.c:146-152 | A value is null exactly if its text is empty or a single zero. |
| ExprLaws.SumsRun | busybox-1.24.2/coreutils/expr.c:225-245 | With two decimal numbers as arguments sum, difference and product are printed. |
| ExprLaws.RelationsRun | busybox-1.24.2/coreutils/expr.c:196-222 | With two decimal numbers as arguments every relation prints 1 or 0 as it holds or not, with status 0 or 1. |
| ExprLaws.StringsRun | busybox-1.24.2/coreutils/expr.c:202-207 | Of strings that are no numbers the one with the smaller character at the first difference is less. |
| ExprLaws.FirstDifference | busybox-1.24.2/coreutils/expr.c:202-207 | The first difference decides the order of strings, and a beginning comes before the whole. |
| ExprLaws.LengthRuns | busybox-1.24.2/coreutils/expr.c:338-342 | `length x` prints the number of characters of x. |
| ExprLaws.Precedence | busybox-1.24.2/coreutils/expr.c:385-516 | The six levels bind in the order of the source and to the left, on one argument list with an operator of each. |
| ExprValue.DividesBack | busybox-1.24.2/coreutils/expr.c:240-244 | Quotient and remainder make up the dividend, and the remainder has its sign and is smaller than the divisor. |
| ExprValue.Relations | busybox-1.24.2/coreutils/expr.c:196-222 | On numbers and strings alike exactly one of less, equal and greater holds, and the other relations are their combinations. |
| ExprValue.StrCmpChain | busybox-1.24.2/coreutils/expr.c:202-207 | The order of strings is transitive. |
| ExprValue.ParseDecimal | busybox-1.24.2/coreutils/expr.c:156-182 | Turning a number into a string and back gives the number. |
| ExprValue.IndexFirst | busybox-1.24.2/coreutils/expr.c:352-360 | `index` gives the first position that holds one of the characters, or zero if there is none. |
| ExprValue.SubstringKept | busybox-1.24.2/coreutils/expr.c:362-377 | `substr` gives at most so many characters from the position on, exactly unless a length of 2^31 or more, cut to 32 bits, falls inside the string. |
| ExprValue.LongSubstring | busybox-1.24.2/coreutils/expr.c:362-377 | A length of 2^32 gives nothing. |
| ExprValue.Xstrndup | busybox-1.24.2/libbb/xfuncs_printf.c:91-113 | The copy has so many characters or all there are; a negative length copies all. |
| Tail.Tailer.File | busybox-1.24.2/coreutils/tail.c:237-310 | However the input comes in pieces: what is written is the last N lines or bytes, or everything from line or byte N on, if and only if `Goes` holds of the count, the buffer and the input; then the buffer can be used for the next file. |
| Tail.Tailer.KeepLines | busybox-1.24.2/coreutils/tail.c:270-304 | The buffer holds the last N lines of what was held and the new bytes, an unterminated last line counted as one, and `newlines_seen` counts its newlines; it goes wrong exactly with a count of 2^31 or more, or if these lines and one read more need 2^31 bytes. |
| Tail.Tailer.KeepBytes | busybox-1.24.2/coreutils/tail.c:264-269 | The buffer holds the last N bytes of what was held and the new bytes, exactly unless the count or the number of bytes is 2^31 or more. |
| Tail.Tailer.SkipLines | busybox-1.24.2/coreutils/tail.c:251-262 | What is written is what lies behind the newlines still to skip. |
| Tail.Tailer.SkipBytes | busybox-1.24.2/coreutils/tail.c:246-262 | What is written is what lies behind the bytes still to skip. |
| Tail.Tailer.Trim | busybox-1.24.2/coreutils/tail.c:284-299 | Passing newlines from the start of the buffer leaves exactly N lines; with a count of 2^31 or more it runs past the data. |
| Tail.Failing | busybox-1.24.2/coreutils/tail.c:237-304 | Whole families of inputs that break the promise: counts of 2^31 and more, long inputs with counts near 2^31, and last lines that need 2^31 bytes. |
| Tail.LongLine | busybox-1.24.2/coreutils/tail.c:237-304 | One such input: a line of 2^31 letters, for its last line and for its last 2^31 - 1 bytes. |
| Tail.Keeping | busybox-1.24.2/coreutils/tail.c:237-304 | Counts below 2^31 and inputs that with one read more stay below 2^31 bytes keep the promise. |
| Input.FullRead | busybox-1.24.2/libbb/read.c:28-54 | However the pieces split the input: as much as there is room for, and less only at the end. |
| Input.SafeRead | busybox-1.24.2/libbb/read.c:11-20 | At most so many bytes, none only at the end, and nothing is lost. |
| Lines.LastLinesAppend | busybox-1.24.2/coreutils/tail.c:270-304 | The last lines of a longer text depend only on the last lines of its beginning. |
| Lines.LastLinesSkip | busybox-1.24.2/coreutils/tail.c:285-297 | The last N lines are what is left after passing the newlines that are too many. |
| Lines.FromLineSkip | busybox-1.24.2/coreutils/tail.c:251-259 | Everything from line N on is what is left after N - 1 newlines. |
| Lines.SplitJoins | busybox-1.24.2/coreutils/tail.c:270-304 | Splitting into lines loses nothing. |
| Lines.SplitLines | busybox-1.24.2/coreutils/tail.c:270-304 | A newline ends a line and is nowhere else in it; only the last line may lack it. |
| Lines.TwoLines | busybox-1.24.2/coreutils/tail.c:252-260 | The byte 10 ends a line: two lines are split there, the last one is the second, and so is everything from line 2 on. |

## Left out

- The checksum of gzip files: `Gzip.Zip` takes its final value as a parameter, because the source of `crc32_block_endian0` is not part of this model.
- Debugging and tracing code of gzip, the `seekable()` branch of `flush_block`, which is never taken, and the reading error of `file_read`.
- The window has `MAX_MATCH` further bytes of any content, because comparisons near the end of the input look past the valid bytes before they are clipped.
- `match_start` may fall below zero after a slide; it is an integer here and not an unsigned number that wraps around, and only distances are formed from it.
- The bit counts `opt_len` and `static_len` of one block are unbounded integers: a block has fewer than 32768 tokens, so that they stay far below 2^32.
- Deflate.FindMatch: that the match is the longest is stated for distances below MAX_DIST and not for the string at window index 0, since the search leaves out both but for the head of its chain; for `nice_match` of 258, with which no shorter match ends a search; and not for the last three bytes of the input, where a long match that is clipped to three bytes may be too far while a nearer one is not.
- BuildTree.BuildTree: requires that the frequencies add up to less than 65534, which holds since a block has fewer than 32768 tokens.
- LzoOptimize.Optimize: requires a stream that decodes to its end and fits the output; the loop tests are asserted there, and what the code does with a stream that has no end is not modelled.
- The jumps between the parts of `lzo1x_optimize` are calls here, and its counters of rewritings, which nothing reads, are left out.
- The compressors and the decompressor of lzop, and its file format.
- DpkgTables.SearchPackage: requires a free slot or a match, since the search does not end otherwise.
- DpkgDeps.SearchStatus: requires a free slot or an entry of the name, since the search does not end otherwise.
- DpkgPass.Database.CheckDeps: requires a free slot in the package and the status table, and room for the words of the statuses in the name table; the conflicts pass before it is left out, because it tests the version of the package being installed instead of that of the package named.
- DpkgIndex.CheckStatusFile: an entry is given as its name, version, dependency fields and status, since finding these in the text of the file is left out; it is stated for files with fewer entries than the status table has slots, and with no more names and status words than the name table has, because a full table is never left.
- DpkgFields.AddSplitDependencies: once an operator is left unset nothing more is said, since what the program does then depends on what the memory held.
- Characters beyond 7 bits in names and versions, and epochs that do not fit `unsigned long`.
- Reading control files, unpacking, configuring and removing packages, and everything else of dpkg that only reads or writes files.
- ExprValue.Calculates: a result that does not fit 64 bits is an outcome of its own, because the source leaves it undefined.
- ExprValue.SubstringKept: is about strings of fewer than 2^31 characters, the only ones `xstrndup` can measure.
- The pattern match of `expr` is a parameter; its warning about a leading circumflex is left out.
- The shortcut of `tail` that seeks near the end of a regular file, its follow mode, and headers between several files.
- Tail.Tailer.File: behind a signed overflow no result is promised, since C leaves it undefined, and pointers and `size_t` have 64 bits.
- File descriptors, options and messages of all five programs.
