# Verified model of image-dfs

A Dafny model of the image store (`src/`) and of the library algorithms below it (`include/common/`), with proofs
of what they promise. `dafny verify dfyconfig.toml` checks the whole project.

| part | files | main results |
|---|---|---|
| word segmentation | `AdjGraph`, `WordTokenizer` | the output is a minimal segmentation that covers the text |
| cJSON | `Doubles`, `CJsonSpec`, `CJsonNumbers`, `CJsonUnicode`, `CJsonRoundTrip`, `CJson`, `CJsonGrammar`, `CJsonLayout`, `CJsonMinify`, `CJsonComments`, `CJsonMeaning`, `CJsonBuffers` | every text of the grammar of RFC 8259 is read as what it stands for; parse after print, in double arithmetic, is the identity on all trees of whole doubles up to b if and only if b is below 18014398509481996; escapes become the UTF-8 they name; minifying drops blanks and comments and keeps what a text means |
| red-black tree | `RedBlackStore`, `RedBlackShape`, `RedBlackTree` | insertion keeps all red-black properties and implements a finite map |
| TCP hand-off | `RingQueue`, `HandOff`, `HandOffProgress`, `HandOffVisits`, `TcpServer` | every buffer is in one place, no push meets a full queue, no wake-up is lost, every accepted client is handed over and everything handed over is served |
| sorts and dense index | `SortSpec`, `MidPivotSort`, `StackSort`, `StackBuffer`, `PayloadSort`, `IndexFile`, `DenseIndex` | all forms sort by a rearrangement; the stack form's 1024 slots are enough for every input of n elements if and only if n is at most 514; after any proper history a search returns the bytes added, and reopening the files gives the same index |
| MD5 | `Md5Spec`, `Md5Steps`, `Md5Answers`, `Md5LongAnswer`, `Md5`, `QMd5` | both implementations compute the RFC 1321 digest however the message is cut, and agree exactly on non-empty messages |
| Base64 | `Base64` | the state machines produce the groups and letters of RFC 4648; decoding inverts encoding |
| hash table and pool | `PoolAllocator`, `HashChains`, `HashSearch` | the table is a finite map; chunks never overlap, are counted right, and run out exactly when all are in use |
| edit distance | `EditDistance` | the recursion is the least number of edits, and a metric |
| load balancing | `LbSpec`, `LbFairness`, `LbScheduler` | weighted round robin is fair exactly when the first server is not the heaviest; with negative weights a call ends exactly under a stated condition |
| substring search | `Kmp` | KMP finds what the naive search finds |
| keyword formulas | `LogicalParser`, `LogicalFormulas` | postfix evaluation gives the boolean value exactly when no atom is negated a positive even number of times |
| image store | `ImagePath`, `ImageStore`, `ImageAnswers`, `ImageServer` | records point to files that are never rewritten, one record per id, files hash to their ids, every upload of an image gets the same answer |
| shared by several parts | `Common` | optional values, bytes, joined chunks, hexadecimal digits, ASCII, counting by pairs |

## How the code is modelled

- Objects that the source updates in place are classes; arrays sorted or minified in place are arrays; local
  vectors and output buffers that only grow are sequences. Each method is proved against a specification function or
  relation, and the properties are proved about that.
- Pointers into raw memory (pool chunks, hash nodes) are addresses of a block and an offset, with the contents in a map.
- Threads are program counters over atomic steps; a step is what the source does between two lock operations. A
  blocked thread stays where it is. Failures of sockets, files and the database are events supplied by the world.
- NUL-terminated strings are sequences without their terminator. Signed and unsigned widths are written out where they
  matter: MD5 words and the count pair, the length field of the dense index, the marks in the data file.
- Edge costs are exact reals. Numbers of the JSON reader are reals too, and each product and sum is rounded to the 53
  binary digits of a double; `pow` is taken to round its result once, and the range of exponents is not bounded.
- Files of the image store are named by the path kept in the record; the fixed root directory in front of it is dropped.

## Where code and comments disagree

The model follows the code.

- `addKey` of the dense index documents 1 for a repeated key and `deleteKey` documents 1 for an absent one
  (`include/common/qdenseindexmanager.h`, lines 157 and 272); the code appends a second entry, and returns -2.
- `Dijkstra` on a target out of reach returns the two end points, not an empty path.
- `max_weight` skips the first server (`include/common/qlbscheduler.cc:178-187`), so weighted round robin gives a first
  server heavier than all others too few turns, and a single server none. `LbFairness.FairExactly` gives the exact condition,
  `LbScheduler.HeavyFirst` an instance, and `LbScheduler.SingleServer` what becomes of one server of any weight.
- A weight of 0 marks a dead server (`include/common/qlbscheduler.h:23`). With one among them the divisor is 0, the weight
  never falls, and only the heaviest servers are handed out (`LbScheduler.DeadServer`).
- Of several negations in front of an atom, all but the last are converted to postfix in front of the atom and so fall
  on the operand before it: `b&!!a` evaluates like `!b&!a`. `LogicalFormulas.RightExactly` gives the exact condition
  and `LogicalFormulas.DoubleNegation` this instance.
- The stack form of the quick sort pushes into 1024 slots without a check (`include/common/qalgorithm.h:606-667`). Some
  input of n elements runs over their end if and only if n is at least 515 (`StackBuffer.OverflowExactly`).
- With a negative weight, the weighted round robin raises its current weight where it should lower it, and a call may not
  end before the weight leaves the range of its 32 bits. `LbScheduler.EndsExactly` gives the exact condition, and
  `LbScheduler.NegativeWeights` an instance from the start.
- A number is read digit by digit in double arithmetic (`include/common/cJSON.c:98-110`), so a whole number may come back as
  another: 18014398509481996 is the least that does, and `CJsonNumbers.TwoTo58` a second instance.
- A \u escape takes the four bytes after it whatever they are (`include/common/cJSON.c:179-193`). Where a quote is among
  them, the parser and `cJSON_Minify` end the string at different places (`CJsonMeaning.RunOnEscape`); where no escape does
  this, minifying keeps the meaning (`CJsonMeaning.MinifyKeepsMeaning`). An escaped zero is dropped.
- `MD5Bits128` returns sixteen zero bytes for the empty input, where the other implementation returns its digest, which is
  different (`Md5Answers.EmptyDigest`).

## Model

| member | source | states |
|---|---|---|
| Graphs.AdjGraph.InsertEdge | include/common/qadjgraph.h:110-127 | the edge is added, with its cost, exactly when both ends exist and they are not joined yet; every other pair keeps its cost |
| Graphs.AdjGraph.GetVertexEdgeCost | include/common/qadjgraph.h:168-175 | the distance table takes the costs of the vertex's edges and keeps the rest |
| Graphs.AdjGraph.Nearest | include/common/qadjgraph.h:198-208 | the chosen vertex is unfinished and no unfinished one is nearer; the sentinel comes back when none is below it |
| Graphs.AdjGraph.Relax | include/common/qadjgraph.h:209-220 | finishes the vertex and lowers exactly the distances its edges lower |
| Graphs.AdjGraph.DijkstraPrint | include/common/qadjgraph.h:257-262 | appends the walk along the predecessors from the source to the target |
| Graphs.FrontierBound | include/common/qadjgraph.h:197-221 | every path to an unfinished vertex costs at least the least unfinished distance |
| Graphs.FinishKeepsInv | include/common/qadjgraph.h:197-221 | finishing a nearest vertex keeps distances optimal for finished vertices and backed by predecessors |
| Graphs.WalkIsPath | include/common/qadjgraph.h:257-262 | the walk back from a finished vertex is a path of the recorded cost |
| Graphs.SearchDone | include/common/qadjgraph.h:178-238 | at the end, finished means reachable below the sentinel, and the walk back is a cheapest path |
| Graphs.AdjGraph.Dijkstra | include/common/qadjgraph.h:178-238 | for non-negative costs the result is a cheapest path if the target is reachable; with edges below the sentinel it is a path if and only if it is reachable |
| WordTokenizer.InsertWordEdges | include/common/qwordtokenizer.cc:178-251 | one loop pass adds exactly the word-graph edges that leave the position |
| WordTokenizer.TagRun | include/common/qwordtokenizer.cc:226-244 | a tag ends just past a '>' or at the end of the text; every '>' inside it is followed by a letter or '/', and the tag by neither |
| WordTokenizer.CharacterClasses | include/common/qwordtokenizer.cc:200-224 | the digits, letters, run marks and tag characters, spelled out |
| WordTokenizer.SampleTag | include/common/qwordtokenizer.cc:226-244 | the tag `<b>` ends before the character that follows it |
| WordTokenizer.SampleTags | include/common/qwordtokenizer.cc:226-244 | a tag goes on past a '>' that '/' follows |
| WordTokenizer.SampleRun | include/common/qwordtokenizer.cc:200-224 | a comma belongs to a run after a digit and ends it after a letter |
| WordTokenizer.SampleEdges | include/common/qwordtokenizer.cc:178-251 | a digit and a letter in either order are one piece, and so are a tag and a Chinese character |
| WordTokenizer.GenerateWordGraph | include/common/qwordtokenizer.cc:178-251 | the graph has an edge of cost one exactly for each character, dictionary word, alphanumeric run and tag |
| WordTokenizer.PathsAreSegmentations | include/common/qwordtokenizer.cc:120-176 | paths through the graph are exactly the segmentations, and their cost counts pieces |
| WordTokenizer.ShortestIsMinimal | include/common/qwordtokenizer.cc:120-176 | a cheapest path is a segmentation with the fewest pieces |
| WordTokenizer.SingleCharacters | include/common/qwordtokenizer.cc:178-251 | cutting at every character is a segmentation, so texts up to 199,999,998 bytes are always within the search |
| WordTokenizer.PiecesCoverText | include/common/qwordtokenizer.cc:253-292 | the pieces between the cuts concatenate to the text |
| WordTokenizer.ShortestPath2String | include/common/qwordtokenizer.cc:253-292 | writes the pieces with separators when there is room for one after each, else returns -11 |
| WordTokenizer.WordTokenize | include/common/qwordtokenizer.cc:120-176 | for every even-length text and dictionary: the pieces cover the text, each is a word-graph edge, and no segmentation has fewer, exactly as far as the piece count stays below the cost sentinel |
| CJson.SkipBlanks | include/common/cJSON.c:261-261 | drops exactly the leading bytes 1 to 32 |
| CJson.ParseNumber | include/common/cJSON.c:96-116 | the loops compute the number and remainder of the specification, with every product and sum rounded to a double |
| CJsonNumbers.ReadsSpelled | include/common/cJSON.c:96-116 | every number of section 6 of RFC 8259, with or without fraction, exponent and signs, is read as its digits accumulated and scaled by the signed exponent less the number of fraction digits, up to the next byte that ends a number |
| Doubles.RoundAgain | include/common/cJSON.c:98-110 | rounding gives a double, which rounding leaves alone |
| Doubles.RoundError | include/common/cJSON.c:98-110 | the relative error of rounding is at most 2^-53 |
| Doubles.RoundWhole | include/common/cJSON.c:98-110 | whole numbers up to 2^53 are not rounded |
| CJson.ParseString | include/common/cJSON.c:155-212 | escapes, surrogate pairs and UTF-8 encoding as specified; the remainder starts after the closing quote |
| CJsonBuffers.CountString | include/common/cJSON.c:160-160 | the first loop counts one for each byte, an escaped one included |
| CJsonBuffers.CountedExactly | include/common/cJSON.c:160-160 | up to the closing quote: one for each byte and each letter escape, five for four hexadecimal digits |
| CJsonBuffers.DecodedFits | include/common/cJSON.c:160-212 | the decoded text of a closed literal, in which no \u escape runs into a quote or a backslash, is no longer than was counted |
| CJsonUnicode.Utf8Decodes | include/common/cJSON.c:192-200 | the bytes written for any scalar value decode, by section 4 of RFC 3629, to that value and to what followed it |
| CJsonUnicode.Utf8Only | include/common/cJSON.c:192-200 | no other bytes decode to it |
| CJsonUnicode.EscapedUnit | include/common/cJSON.c:179-200 | an escape that names no surrogate gives the bytes of its code point, and nothing for zero |
| CJsonUnicode.EscapedPair | include/common/cJSON.c:184-200 | an escaped surrogate pair gives the bytes of the one code point it names in section 7 of RFC 8259 |
| CJsonUnicode.ReadsEscapedText | include/common/cJSON.c:155-212 | a literal made of the escapes of any sequence of scalar values reads as text that decodes to that sequence without its zeros |
| CJsonGrammar.HexTable | include/common/cJSON.c:140-152 | the hexadecimal digits of both cases have their values, and no other byte has one |
| CJsonGrammar.ReadsQuoted | include/common/cJSON.c:155-212 | any spelling of a string, by plain bytes, the eight letter escapes of section 7 of RFC 8259, hexadecimal digits and surrogate pairs, is read as what it stands for, and so is one that the text ends before its closing quote |
| CJson.ParseValue | include/common/cJSON.c:287-299 | the recursive descent computes the specified tree and remainder, or fails where it fails |
| CJson.ParseArray | include/common/cJSON.c:320-345 | items and separators as specified |
| CJson.ParseObject | include/common/cJSON.c:406-439 | names, colons and values as specified |
| CJson.ParseWithOpts | include/common/cJSON.c:264-277 | trailing bytes are refused on request |
| CJsonGrammar.ReadsDoc | include/common/cJSON.c:287-439 | every value of the grammar of RFC 8259, with any blanks, any spelling of strings and numbers and any nesting, is read as the tree it stands for, and the rest |
| CJsonGrammar.ParsesDoc | include/common/cJSON.c:264-277 | every text of the grammar is parsed to its tree; what follows it is ignored, or refused when the end is demanded |
| CJsonGrammar.RefusesStart | include/common/cJSON.c:287-299 | no value starts with anything but a keyword, a quote, a minus sign, a digit or an opening bracket |
| CJsonGrammar.RefusesArray | include/common/cJSON.c:320-345 | an array is refused where neither a comma and a value nor a closing bracket follows an item |
| CJsonGrammar.RefusesName | include/common/cJSON.c:406-439 | an object is refused where neither a name nor a closing brace follows the opening one |
| CJsonGrammar.RefusesColon | include/common/cJSON.c:406-439 | and where no colon follows a name |
| CJsonGrammar.RefusesObject | include/common/cJSON.c:406-439 | and where neither a comma and a name nor a closing brace follows a member |
| CJson.PrintStringPtr | include/common/cJSON.c:215-248 | the quoted and escaped text |
| CJsonLayout.EscapedForm | include/common/cJSON.c:215-248 | visible bytes but quote and backslash stand for themselves, seven bytes have a letter, the other control bytes two hexadecimal digits |
| CJsonBuffers.CountEscaped | include/common/cJSON.c:220-220 | the first loop counts two for each byte with an escape of its own, six for other control bytes and one for the rest |
| CJsonBuffers.StringTextLength | include/common/cJSON.c:220-248 | that text and its terminator take up the counted bytes exactly |
| CJson.PrintValue | include/common/cJSON.c:302-317 | the printed text at any depth, formatted or not, for any numbers |
| CJson.PrintArray | include/common/cJSON.c:348-403 | the pre-printed items joined into the array's text |
| CJsonLayout.ArrayLayout | include/common/cJSON.c:348-403 | the texts of the items, separated by a comma, and a blank when formatted, between brackets |
| CJsonBuffers.ArrayFits | include/common/cJSON.c:351-403 | that text and its terminator fit into the counted bytes |
| CJson.PrintObject | include/common/cJSON.c:442-507 | members joined with tabs and line breaks as specified |
| CJsonLayout.ObjectLayout | include/common/cJSON.c:442-507 | each member on a line of its own, one tab deeper than the braces, with a tab after the colon; an empty object closes on the next line, one tab less deep than it opens |
| CJsonLayout.FlatObjectLayout | include/common/cJSON.c:442-507 | without format, names, colons and values separated by commas only |
| CJsonBuffers.ObjectFits | include/common/cJSON.c:445-507 | that text and its terminator fit into the counted bytes |
| CJsonNumbers.ReadsNumber | include/common/cJSON.c:96-138 | the text of any number, in each of its formats, is read as the double that its digits accumulate to, up to the next byte that ends a number |
| CJsonNumbers.ReadExactly | include/common/cJSON.c:102-103 | as long as the number shown is at most 2^53, every accumulator is the whole number shown so far and nothing is rounded |
| CJsonNumbers.WholeSafe | include/common/cJSON.c:96-116 | every whole double below 18014398509481996 is read back from its digits |
| CJsonNumbers.WholeUnsafe | include/common/cJSON.c:96-116 | that number is a double, and its digits are read as 18014398509482000 |
| CJsonNumbers.TwoTo58 | include/common/cJSON.c:96-138 | 2^58 comes back as 32 less |
| CJsonNumbers.ReadingClose | include/common/cJSON.c:96-138 | a number that is not whole is read to within two DBL_EPSILON, relatively, of what its text shows |
| CJsonNumbers.ExactWhole | include/common/cJSON.c:118-138 | whole numbers of up to sixty digits are shown exactly |
| CJsonNumbers.FixedClose | include/common/cJSON.c:118-138 | what the fixed format prints is shown to within half a millionth, and exactly if and only if it is a whole number of millionths |
| CJsonNumbers.ScientificClose | include/common/cJSON.c:118-138 | what the exponent format prints is shown to within half a unit of the seventh digit |
| CJsonLayout.WholeText | include/common/cJSON.c:118-138 | whole numbers of up to sixty digits are written out |
| CJsonLayout.FractionalShape | include/common/cJSON.c:118-138 | other numbers have six digits after the point, and an exponent of at least two digits exactly outside the range from a millionth to a thousand millions |
| CJsonLayout.DigitTable | include/common/cJSON.c:102-106 | the ten digits have their values |
| CJsonLayout.Half | include/common/cJSON.c:118-138 | one half is `0.500000` |
| CJsonRoundTrip.ReadsString | include/common/cJSON.c:155-248 | reading the escaped text of a NUL-free string returns the string and the rest |
| CJsonRoundTrip.ReadsArray | include/common/cJSON.c:320-403 | reading a printed array returns its items, with numbers as read, and the rest, in both modes |
| CJsonRoundTrip.ReadsObject | include/common/cJSON.c:406-507 | reading a printed object returns its members, with numbers as read, and the rest, in both modes |
| CJsonRoundTrip.ReadsValue | include/common/cJSON.c:287-317 | reading any printed tree returns the tree, with numbers as read, and exactly what followed it |
| CJsonRoundTrip.RoundTrip | include/common/cJSON.c:264-317 | parsing the print of any tree of NUL-free strings uses all text and changes only numbers; whole doubles below 18014398509481996 are not changed |
| CJsonRoundTrip.RoundTripExactly | include/common/cJSON.c:264-317 | all trees of whole doubles up to b come back from their prints, at every depth and in both modes, if and only if b is below 18014398509481996 |
| CJson.PrintThenParse | include/common/cJSON.c:264-317 | the printing code followed by the parsing code returns the tree, with numbers as read, and the tree itself when its numbers are whole doubles below 18014398509481996 |
| CJsonMinify.KeepsString | include/common/cJSON.c:581-596 | string literals pass through minification unchanged, blanks and comment signs inside included |
| CJsonMinify.KeepsArray | include/common/cJSON.c:581-596 | a formatted array minifies to its unformatted text |
| CJsonMinify.KeepsObject | include/common/cJSON.c:581-596 | a formatted object minifies to its unformatted text |
| CJsonMinify.MinifyFormatted | include/common/cJSON.c:581-596 | minifying the formatted print of any tree gives exactly the unformatted print |
| CJsonMinify.Minify | include/common/cJSON.c:581-596 | the in-place rewrite leaves the minified text and its terminator at the front of the buffer and changes no cell after them |
| CJsonComments.DropsLineComment | include/common/cJSON.c:589-590 | a comment to the end of the line is dropped with its line break |
| CJsonComments.DropsLastComment | include/common/cJSON.c:590-590 | and so is one that ends the text |
| CJsonComments.DropsBlockComment | include/common/cJSON.c:591-591 | a comment between its marks is dropped, whatever else it holds |
| CJsonComments.KeepsLiteral | include/common/cJSON.c:592-592 | a literal is kept up to the first quote that no backslash protects |
| CJsonComments.KeepsSlash | include/common/cJSON.c:593-593 | a slash that opens no comment is kept |
| CJsonComments.DropsComments | include/common/cJSON.c:581-596 | any text of tokens and literals with blanks and comments between them minifies to those tokens and literals, byte for byte and in order, and so to the same as without the comments |
| CJsonMeaning.Accumulates | include/common/cJSON.c:581-596 | what is already written never affects how the rest is minified |
| CJsonMeaning.ReadsFront | include/common/cJSON.c:155-212 | a closed literal reads the same whatever follows it |
| CJsonMeaning.PlainSound | include/common/cJSON.c:155-592 | a closed literal in which no \u escape runs into a quote or a backslash ends at the same quote for the parser and for the minifier |
| CJsonMeaning.NumberLocal | include/common/cJSON.c:96-116 | a number reads the same whatever separator, blank or end follows it |
| CJsonMeaning.ValueKept | include/common/cJSON.c:287-299 | where a text starts with a value, the minified text starts with the same value and goes on with the rest minified |
| CJsonMeaning.TidyKeepsMeaning | include/common/cJSON.c:264-596 | any text that parses to its end, and whose literals end at the same quote for the parser and for the minifier, is minified to a text that parses to the same tree |
| CJsonMeaning.PlainTidy | include/common/cJSON.c:155-592 | the literals of a text do so when they are closed and no \u escape in them runs into a quote or a backslash |
| CJsonMeaning.MinifyKeepsMeaning | include/common/cJSON.c:264-596 | any text that parses to its end, with closed literals in which no \u escape runs into a quote or a backslash, is minified to a text that parses to the same tree |
| CJsonMeaning.RunOnEscape | include/common/cJSON.c:179-193 | a text with an escape that runs into a quote: it parses, while minifying runs over its end |
| RedBlackStore.TurnKeepsStructure | include/common/qredblacktree.h:353-394 | a rotation keeps links, search order and the set of keys |
| RedBlackTree.QRedBlackTree.LeftRotate | include/common/qredblacktree.h:353-372 | relinks exactly as a left rotation of the node |
| RedBlackTree.QRedBlackTree.RightRotate | include/common/qredblacktree.h:375-394 | relinks exactly as a right rotation of the node |
| RedBlackStore.FlipMovesClash | include/common/qredblacktree.h:251-257 | with a red uncle, recolouring moves the only red pair two levels up |
| RedBlackStore.InnerTurn | include/common/qredblacktree.h:260-263 | rotating an inner grandchild keeps the clash and makes it an outer one |
| RedBlackStore.OuterTurn | include/common/qredblacktree.h:265-267 | recolouring and rotating over the grandparent ends the clash and balances black counts |
| RedBlackTree.QRedBlackTree.FixStep | include/common/qredblacktree.h:248-288 | one loop pass repairs the tree or moves the clash nearer to the root |
| RedBlackTree.QRedBlackTree.InsertFixup | include/common/qredblacktree.h:246-291 | restores all red-black properties and keeps the keys |
| RedBlackTree.QRedBlackTree.FindSlot | include/common/qredblacktree.h:96-114 | the descent ends at the key's node, or at the sentinel below the node to hang it under |
| RedBlackTree.QRedBlackTree.Insert | include/common/qredblacktree.h:91-139 | a new key is added (0), a present one reported (1) and overwritten or else counted only on request, an oversized tree refuses (-10), and nothing changes when no node can be had (-1); validity is kept |
| RedBlackTree.QRedBlackTree.Search | include/common/qredblacktree.h:208-223 | returns the mapped value exactly for the inserted keys |
| RedBlackShape.StoreTree | include/common/qredblacktree.h:91-139 | the linked nodes form a search tree without red pairs whose paths all have one black count |
| RedBlackShape.HeightBound | include/common/qredblacktree.h:246-291 | two to the height is at most the square of the node count plus one |
| RedBlackTree.QRedBlackTree.ValidTree | include/common/qredblacktree.h:91-139 | in every valid tree: search order, black root, no red pair, equal black counts, height at most twice the logarithm |
| RingQueue.RingLength | include/common/qqueue.h:59-66 | the size formula counts the elements; full and empty tests are exact |
| RingQueue.RingPush | include/common/qqueue.h:107-124 | writing at the rear of a ring that is not full appends |
| RingQueue.RingPop | include/common/qqueue.h:126-143 | stepping the front removes the oldest element |
| RingQueue.QQueue.Init | include/common/qqueue.h:33-43 | an empty queue with one slot less than its size of room; -1 for a size below one, -2 and no slots when they cannot be had |
| RingQueue.QQueue.Clear | include/common/qqueue.h:45-54 | the queue is empty |
| RingQueue.QQueue.Size | include/common/qqueue.h:59-60 | the number of elements |
| RingQueue.QQueue.Full | include/common/qqueue.h:62-63 | exact |
| RingQueue.QQueue.Empty | include/common/qqueue.h:65-66 | exact |
| RingQueue.QQueue.PushNonBlocking | include/common/qqueue.h:68-124 | one pass of a push: -1 and unchanged when full, else appended at the end |
| RingQueue.QQueue.PopNonBlocking | include/common/qqueue.h:87-143 | one pass of a pop: -1 when empty, else the first element is removed and returned |
| RingQueue.QTrigger.Signal | include/common/qglobal.h:2207-2220 | sets the state |
| RingQueue.QTrigger.Wait | include/common/qglobal.h:2222-2234 | passes only when the state is set, and consumes it when auto-reset |
| TcpServer.QTcpServer.Init | include/common/qtcpsocket.cc:285-350 | all buffers start in the free queue, both queues have room for all of them; an error exactly for a negative size or when one of the allocations fails |
| TcpServer.QTcpServer.Stop | include/common/qtcpsocket.cc:220-220 | only the exit flag changes |
| TcpServer.QTcpServer.CommThread | include/common/qtcpsocket.cc:726-784 | each atomic action of a communication thread on the ring queues is a protocol step, and its pushes always succeed |
| TcpServer.QTcpServer.WorkThread | include/common/qtcpsocket.cc:786-901 | each atomic action of a worker on the ring queues is a protocol step, and its pushes always succeed |
| HandOff.NextInv | include/common/qtcpsocket.cc:726-901 | every step of every thread, failures and shutdown included, keeps the invariant |
| HandOff.RunInv | include/common/qtcpsocket.cc:726-901 | the invariant holds in every state of every interleaving |
| HandOff.OnePlace | include/common/qtcpsocket.cc:726-901 | in every reachable state no buffer is in two places and none is lost |
| HandOff.NeverFull | include/common/qtcpsocket.cc:726-901 | whenever a thread is about to push, its queue has room |
| HandOff.NoLostWakeup | include/common/qtcpsocket.cc:726-901 | while clients are pending and a worker lives, some thread that will see to them can move |
| HandOff.PendingIsWatched | include/common/qtcpsocket.cc:726-901 | while clients are pending, a signal is pending, a producer is about to signal, or a worker is still draining |
| HandOff.ServedInOrder | include/common/qtcpsocket.cc:726-901 | clients are served once each, in hand-over order, with the socket they were handed over with |
| HandOffVisits.AcceptedIsHanded | include/common/qtcpsocket.cc:738-771 | whatever other threads do in between, a connection that is accepted and whose timeout is set is handed over with its own socket, behind the clients pending by then, and signalled |
| HandOffVisits.FailedIsGivenBack | include/common/qtcpsocket.cc:738-777 | where accepting or setting the timeout fails, the buffer goes back to the free ones and nothing is handed over |
| HandOffVisits.PendingIsServed | include/common/qtcpsocket.cc:801-901 | a woken worker takes the oldest client, serves it, returns its buffer to the free ones and looks for the next |
| HandOffVisits.LeavesWhenStopped | include/common/qtcpsocket.cc:738-901 | a thread leaves exactly from the top of its loop once the exit flag is set, and for good |
| HandOffProgress.ServingCosts | include/common/qtcpsocket.cc:726-901 | every move of a worker or of a signalling producer uses up a bounded effort |
| HandOffProgress.ServingEnds | include/common/qtcpsocket.cc:726-901 | without new hand-overs, workers and signals come to rest within that effort, in whatever order they move |
| HandOffProgress.RestIsServed | include/common/qtcpsocket.cc:726-901 | at rest with a worker alive, every client handed over has been served |
| HandOffProgress.CanMoveMoves | include/common/qtcpsocket.cc:726-901 | a serving thread that is not blocked has a step that changes the state, so the only rest is a served one |
| SortSpec.SortParts | include/common/qalgorithm.h:592-600 | sorting the two parts one after the other sorts the whole, even when they share an index |
| SortSpec.SortsAgree | include/common/qalgorithm.h:560-667 | any two of the sorts produce the same array |
| SortSpec.SameElements | include/common/qalgorithm.h:560-603 | a rearrangement keeps elements with their multiplicities |
| MidPivotSort.SwapParts | include/common/qalgorithm.h:580-591 | one loop pass keeps the split, and where the scans meet both parts are strictly smaller |
| MidPivotSort.MeetSplits | include/common/qalgorithm.h:575-595 | the meeting point splits the range by a rearrangement into parts not above and not below the middle element; of three elements the one met is not below it |
| MidPivotSort.Partition | include/common/qalgorithm.h:575-595 | rearranges the range into a part not above and a part not below the middle element, as the scans leave it |
| MidPivotSort.RecursionSort | include/common/qalgorithm.h:560-603 | terminates and sorts the range by a rearrangement of it alone |
| StackSort.PendingSpan | include/common/qalgorithm.h:606-667 | the lengths of pending ranges sum to at most the initial length, so there are no more ranges than that |
| StackSort.Replace | include/common/qalgorithm.h:617-664 | replacing the top range by its parts keeps every unordered pair inside one pending range |
| StackSort.SplitShrinks | include/common/qalgorithm.h:657-664 | both pushed ranges are strictly shorter, together no longer than the range, and at most one is left of three elements |
| StackSort.SplitLoad | include/common/qalgorithm.h:617-664 | splitting a range never raises the number of slots that may still be needed |
| StackSort.TurningBounds | include/common/qalgorithm.h:617-664 | at every turn of the loop at most max(1, n - 2) ranges are pending, for n elements |
| StackBuffer.Fits | include/common/qalgorithm.h:606-667 | no range of up to 514 elements runs over the 1024 slots |
| StackBuffer.FillingOverflows | include/common/qalgorithm.h:606-667 | for every n from 515 on there is an input of n elements that does |
| StackBuffer.OverflowExactly | include/common/qalgorithm.h:606-667 | some input of n elements runs over the buffer if and only if n is at least 515 |
| StackBuffer.UnrecursionSort | include/common/qalgorithm.h:606-667 | reports an overflow exactly on the inputs that run over the 1024 slots, never below 515 elements; otherwise terminates and sorts by a rearrangement |
| StackBuffer.SortBothWays | include/common/qalgorithm.h:560-667 | the recursive and the stack form turn every input on which the stack does not overflow into the same sorted array |
| PayloadSort.PartitionRows | include/common/qalgorithm.h:1040-1071 | splits the keys and moves both payloads alike |
| PayloadSort.RecursionSortRows | include/common/qalgorithm.h:1018-1079 | sorts the keys and applies one and the same rearrangement to all three arrays |
| PayloadSort.BinarySearch | include/common/qalgorithm.h:63-83 | an index returned holds the key; in a sorted range -1 means absent |
| DenseIndex.StoredParts | include/common/qdenseindexmanager.h:247-266 | the marks, the length and the bytes read back are those written |
| DenseIndex.QDenseIndexManager.AddKey | include/common/qdenseindexmanager.h:158-189 | exact return codes; an entry and record are appended, or no entry changes, torn writes included |
| DenseIndex.QDenseIndexManager.RearrangeIndex | include/common/qdenseindexmanager.h:192-227 | the entries are the same and their keys sorted, whatever the return code; exact codes for each failing write, and -6 for an empty index; on success the file starts with the bytes of the index |
| IndexFile.Reopens | include/common/qdenseindexmanager.h:85-115 | opening reads back the sizes and columns written, whatever older bytes follow them; an index without entries gives -12 |
| IndexFile.IndexLayout | include/common/qdenseindexmanager.h:200-226 | mark, two sizes, three columns and mark stand in the file in this order |
| IndexFile.ColumnAt | include/common/qdenseindexmanager.h:212-219 | every number has its own bytes in its column |
| IndexFile.MarkSpelled | include/common/qdenseindexmanager.h:29-29 | the mark is `@QDIM1.0` |
| IndexFile.ByteOrder | include/common/qdenseindexmanager.h:200-226 | low bytes come first |
| DenseIndex.RearrangeAndReopen | include/common/qdenseindexmanager.h:62-227 | after a successful rewrite, opening the files again gives an index of the same rows and history |
| DenseIndex.QDenseIndexManager.SearchKey | include/common/qdenseindexmanager.h:233-267 | exact return codes; after any proper history, in a sorted index, exactly the live keys return, with the bytes added |
| DenseIndex.QDenseIndexManager.DeleteKey | include/common/qdenseindexmanager.h:273-284 | marks the entry found; in a sorted index it is found exactly when present |
| DenseIndex.HistoryDelete | include/common/qdenseindexmanager.h:273-284 | deleting while sorted keeps the entries in agreement with the history |
| DenseIndex.HistoryRearrange | include/common/qdenseindexmanager.h:192-198 | sorting keeps the entries in agreement with the history |
| DenseIndex.Lookup | include/common/qdenseindexmanager.h:233-267 | after a proper history a live key has an entry, with its bytes and not deleted, and no other key has one that is not deleted |
| Md5Spec.BlocksPrefix | include/common/MD5.cc:250-284 | bytes that come later do not affect earlier blocks |
| Md5Spec.CountsOn | include/common/MD5.cc:255-259 | the count pair with its carry is the length in bits modulo 2^64 |
| Md5Spec.Index | include/common/MD5.cc:253-253 | the low word tells how many bytes wait in the buffer |
| Md5Spec.CountBytes | include/common/MD5.cc:306-308 | the two count words written out are the 64-bit length of section 3.2 of RFC 1321 |
| Md5.PaddingOf | include/common/MD5.cc:310-313 | the padding added is the one of section 3.1 of RFC 1321 |
| Md5.Leftover | include/common/MD5.cc:268-283 | after the last whole block the buffer holds exactly the rest |
| Md5.MD5.Update | include/common/MD5.cc:250-284 | state, count and buffer are those of the message so far followed by the input |
| Md5.MD5.Finalize | include/common/MD5.cc:297-329 | the digest of everything fed, by sections 3.1 to 3.5 of RFC 1321; a second call changes nothing |
| Md5.HashChunks | include/common/MD5.cc:250-329 | the digest does not depend on how the message is cut |
| QMd5.Context.Update | include/common/qmd5.h:104-136 | the same promise for the second implementation |
| QMd5.Context.Final | include/common/qmd5.h:141-164 | the digest of everything fed |
| QMd5.MD5Bits128 | include/common/qmd5.h:333-346 | the digest, or sixteen zero bytes for the empty input |
| QMd5.MD5Bits64 | include/common/qmd5.h:324-331 | the number whose bytes are the first eight of the digest |
| QMd5.BothDigests | include/common/qmd5.h:104-346 | the two implementations agree on a message if and only if it is not empty |
| Md5Answers.EmptyDigest | include/common/MD5.cc:160-329 | the digest of the empty message is the one in appendix A.5 of RFC 1321 |
| Md5Answers.AbcDigest | include/common/MD5.cc:160-329 | the digest of "abc" is the one in appendix A.5 of RFC 1321 |
| Md5LongAnswer.LongDigest | include/common/MD5.cc:160-329 | the digest of the 62 letters and digits, a message of two blocks with sixteen different words in the first, is the one in appendix A.5 of RFC 1321 |
| Md5Steps.RoundsAreSteps | include/common/MD5.cc:160-248 | for every state and block the four rounds are the 64 steps of section 3.4 of RFC 1321: word i, 5i+1, 3i+5 or 7i modulo 16, with shifts and constants from its tables |
| Base64.ValueBack | include/common/base64.c:133-150 | the value of the letter of a value is that value |
| Base64.LetterBack | include/common/base64.c:133-150 | a byte has a value if and only if it is the letter of one, and it is the letter of its value |
| Base64.AlphabetTable | include/common/base64.c:12-17 | the letter of value v is character v of Table 1 of RFC 4648 |
| Base64.AlphabetPosition | include/common/base64.c:133-150 | a byte has a value exactly if it is in that table, and then its value is its position there |
| Base64.EncodeAnyCut | include/common/base64.c:19-78 | encoding in any chunks gives the characters and state of one call |
| Base64.EncodesReference | include/common/base64.c:19-101 | the state machine produces the 24-bit groups of RFC 4648 with padding and a break after 18 groups |
| Base64.LineBreaks | include/common/base64.c:19-78 | line breaks stand after every 72 characters and nowhere else |
| Base64.Answers | include/common/base64.c:19-101 | `f`, `fo` and `foobar` are encoded as in section 10 of RFC 4648 |
| Base64.ReferenceLength | include/common/base64.c:103-131 | four characters a group begun and one break for 18 full groups |
| Base64.DecodeAnyCut | include/common/base64.c:158-220 | decoding in any chunks gives the bytes and state of one call |
| Base64.DecodesReference | include/common/base64.c:158-220 | decoding an encoding gives back the bytes, breaks and padding skipped |
| Base64.Encoder.EncodeBlock | include/common/base64.c:19-78 | the resumable loop advances state and output by the input |
| Base64.Encoder.EncodeBlockend | include/common/base64.c:80-101 | the rest of the last group, padding and a line break |
| Base64.Decoder.DecodeBlock | include/common/base64.c:158-220 | the resumable loop advances state and output by the text; after a finished group the pending byte is the next cell of the output |
| Base64.PendingIgnored | include/common/base64.c:158-220 | before a group the pending byte affects nothing that follows |
| Base64.Encode | include/common/base64.c:103-131 | the encoding without its last break, of length 4*ceil(n/3)+floor(n/54); -1 for empty input |
| Base64.Decode | include/common/base64.c:222-245 | the bytes of the text; -1 for empty input |
| Base64.RoundTrip | include/common/base64.c:103-245 | decoding the encoding returns every non-empty byte string |
| PoolAllocator.QPoolAllocator.LiveChunks | include/common/qallocator.cc:124-189 | live chunks lie inside their blocks, do not overlap, are not on the recycle list, and number allocations minus returns |
| PoolAllocator.QPoolAllocator.Init | include/common/qallocator.cc:94-122 | an empty pool; -1 for sizes below one, -2 when the block table cannot be had |
| PoolAllocator.QPoolAllocator.Alloc | include/common/qallocator.cc:124-167 | a chunk nobody holds, a returned one first; null exactly when blocks or memory are used up |
| PoolAllocator.QPoolAllocator.ExhaustedExactly | include/common/qallocator.cc:124-167 | while there is memory, chunks run out exactly when every chunk of every block is in use |
| PoolAllocator.QPoolAllocator.Free | include/common/qallocator.cc:169-177 | the chunk moves from the live ones to the front of the recycle list |
| PoolAllocator.QPoolAllocator.ResetAllocator | include/common/qallocator.cc:179-189 | every chunk is free again |
| HashChains.AddedFormed | include/common/qhashsearch.h:115-128 | linking a fresh chunk at its bucket's head adds one pair to the map |
| HashChains.RemovedFormed | include/common/qhashsearch.h:222-229 | unlinking a chunk, from the head or the middle, removes exactly its key |
| HashChains.WalkMeetsAll | include/common/qhashsearch.h:356-393 | walking all buckets meets each key of the map once |
| HashSearch.QHashSearch.Find | include/common/qhashsearch.h:93-113 | the chain walk finds the key's chunk exactly when the key is present |
| HashSearch.QHashSearch.Counted | include/common/qhashsearch.h:332-335 | the element count is the size of the map |
| HashSearch.QHashSearch.AddKey | include/common/qhashsearch.h:90-140 | 1 and unchanged for a present key, -1 exactly when no chunk can be had, else the pair is added, with what the chunk held when no value is given; the same with the bucket named |
| HashSearch.QHashSearch.FullExactly | include/common/qhashsearch.h:90-140 | while there is memory, the table is full exactly with a million keys |
| HashSearch.QHashSearch.SearchKey | include/common/qhashsearch.h:147-170 | the value exactly for keys of the map, bucket named or not |
| HashSearch.QHashSearch.UpdateKey | include/common/qhashsearch.h:178-206 | replaces the value of a present key, or keeps it when none is given; -1 otherwise |
| HashSearch.QHashSearch.DeleteKey | include/common/qhashsearch.h:212-235 | removes the key and returns its chunk; -1 when absent |
| HashSearch.QHashSearch.Clear | include/common/qhashsearch.h:338-353 | the map is empty and all chunks are free |
| HashSearch.QHashSearch.PrepareTraversal | include/common/qhashsearch.h:356-361 | every chunk is still to be visited |
| HashSearch.QHashSearch.Traverse | include/common/qhashsearch.h:368-393 | hands out the next chunk to visit; -1 only when none is left |
| HashSearch.QHashSearch.TraverseAll | include/common/qhashsearch.h:356-393 | a full traversal yields each key of the map exactly once |
| EditDistance.DistanceLeast | include/common/qdistance.h:125-141 | no alignment is cheaper than the recursion's value, skipped heads included |
| EditDistance.DistanceMet | include/common/qdistance.h:125-141 | some alignment costs exactly that |
| EditDistance.EditsAtLeast | include/common/qdistance.h:125-141 | no sequence of single insertions, deletions and replacements is shorter |
| EditDistance.EditsReach | include/common/qdistance.h:125-141 | some sequence has exactly that length |
| EditDistance.Symmetric | include/common/qdistance.h:125-141 | symmetric |
| EditDistance.ZeroOnEqual | include/common/qdistance.h:125-141 | zero exactly on equal strings |
| EditDistance.Triangle | include/common/qdistance.h:125-141 | satisfies the triangle inequality |
| LbSpec.PassRun | include/common/qlbscheduler.cc:108-135 | the rest of a pass hands out, in order, the servers that carry the current weight |
| LbSpec.BlockRun | include/common/qlbscheduler.cc:108-135 | successive passes hand out the levels from the top weight down to the divisor |
| LbFairness.BlockCount | include/common/qlbscheduler.cc:108-135 | a server occurs in a block as often as its capped weight holds the divisor |
| LbFairness.BlockLength | include/common/qlbscheduler.cc:108-135 | a block is as long as the capped weights over the divisor |
| LbFairness.BlockShares | include/common/qlbscheduler.cc:108-135 | every block gives each server its capped share and restores the scheduler state |
| LbFairness.FairExactly | include/common/qlbscheduler.cc:108-187 | a block of sum over divisor picks returns each server its weight over divisor times and restores the state if and only if the first server is not heavier than every other; a single server is never returned |
| LbFairness.WarmUp | include/common/qlbscheduler.cc:108-135 | the first picks are the servers after the first, once each, and lead to the state between blocks |
| LbScheduler.GcdIsGcd | include/common/qlbscheduler.cc:200-219 | the divisor found is the greatest common one of positive weights |
| LbScheduler.QLBScheduler.GetServerRR | include/common/qlbscheduler.cc:90-106 | the next server going round with any weight; -1 exactly when there is none |
| LbScheduler.EndsExactly | include/common/qlbscheduler.cc:108-135 | a call ends if and only if no weight is negative, or a later server carries the current weight, or some server carries it raised by the smallest weight; any other call raises the weight past 2^31-1 |
| LbScheduler.SingleServer | include/common/qlbscheduler.cc:108-135 | one server: -1 and the same state for every weight that is not negative, and for a negative one no end |
| LbScheduler.NegativeWeights | include/common/qlbscheduler.cc:108-135 | weights -2 and -1: the first call does not end |
| LbScheduler.DeadServer | include/common/qlbscheduler.cc:108-135 | with a weight of 0 among weights that are not negative, every server after the first is returned once, and from then on the heaviest only |
| LbSpec.NoWeights | include/common/qlbscheduler.cc:108-135 | if all weights are 0, the servers after the first are returned in turn and then -1 |
| LbScheduler.QLBScheduler.GetServerWRR | include/common/qlbscheduler.cc:108-135 | every call that ends has the pick and state of the scan |
| LbScheduler.PickMany | include/common/qlbscheduler.cc:108-135 | successive calls on the object hand out the run of picks the fairness results speak of |
| LbScheduler.QLBScheduler.MaxWeight | include/common/qlbscheduler.cc:178-187 | the largest weight of the servers after the first, at least zero |
| LbScheduler.QLBScheduler.MinWeight | include/common/qlbscheduler.cc:189-198 | the smallest weight of all servers |
| LbScheduler.QLBScheduler.FindGcd | include/common/qlbscheduler.cc:200-219 | the first common divisor met going down from the smallest weight |
| LbScheduler.HeavyFirst | include/common/qlbscheduler.cc:178-187 | with weights 2 and 1 the promise is broken |
| Kmp.NextKmp | include/common/qfunc.h:150-165 | the table holds the longest proper border of every prefix |
| Kmp.Shift | include/common/qfunc.h:131-148 | falling back along the table skips no match |
| Kmp.Find | include/common/qfunc.h:118-128 | the naive search returns the first match, or -1 exactly when there is none |
| Kmp.FindKmp | include/common/qfunc.h:131-148 | with the table, the first match from the start position on |
| Kmp.BothFind | include/common/qfunc.h:118-165 | both searches return the same position for every text and pattern |
| LogicalParser.QLogicalParser.InToPost | include/common/qlogicalparser.cc:20-56 | the loops compute the specified postfix tokens for every string |
| LogicalParser.QLogicalParser.CalRun | include/common/qlogicalparser.cc:81-101 | the stack machine's result, with the member stack empty again |
| LogicalParser.QLogicalParser.DoOperator | include/common/qlogicalparser.cc:103-142 | one operator on the member stack; a missing operand clears it |
| LogicalParser.QLogicalParser.Parse | include/common/qlogicalparser.cc:13-18 | conversion then evaluation; the member stack is empty after every call |
| LogicalFormulas.ScanFormula | include/common/qlogicalparser.cc:20-56 | after any formula of atoms, each negated any number of times, at most one operator of each kind waits, loosest first |
| LogicalFormulas.RunOutput | include/common/qlogicalparser.cc:81-142 | the operand stack holds the values of finished alternatives, of the current conjunction, and of the last atom, with the surplus negations of a literal on the operand before it |
| LogicalFormulas.TotalIsValue | include/common/qlogicalparser.cc:58-74 | combining these without surplus negations gives the disjunction of conjunctions of literals |
| LogicalFormulas.Evaluates | include/common/qlogicalparser.cc:13-142 | postfix evaluation of any formula gives the value in which surplus negations are taken where they fall |
| LogicalFormulas.EvaluatesRight | include/common/qlogicalparser.cc:13-142 | a formula in which every atom is negated not at all or an odd number of times evaluates to its boolean value |
| LogicalFormulas.OneWord | include/common/qlogicalparser.cc:81-101 | a single word is true exactly when it is `UK`, the key or one of the meanings, and its negation otherwise |
| LogicalFormulas.Misleads | include/common/qlogicalparser.cc:33-42 | any other formula of distinct atoms has meanings under which its evaluation is wrong |
| LogicalFormulas.RightExactly | include/common/qlogicalparser.cc:13-142 | a formula of distinct atoms is evaluated right under every key and all meanings if and only if no atom is negated a positive even number of times |
| LogicalFormulas.ParseFormula | include/common/qlogicalparser.cc:13-142 | the parser returns that value and is ready for the next call |
| LogicalFormulas.DoubleNegation | include/common/qlogicalparser.cc:33-42 | `b&!!a` is false where `b` is true and `a` is not, while `b&!a` is true there |
| ImagePath.PathNamesId | src/idfsserver.cc:225-225 | two paths are equal only if they name the same image id |
| ImagePath.SamplePath | src/idfsserver.cc:225-225 | id 3987 is stored in folder 987 under its hexadecimal name |
| ImagePath.TypeNames | src/idfsserver.cc:443-460 | the five type names |
| ImageStore.NextInv | src/idfsserver.cc:212-249 | every step of every upload, whichever part of it fails, keeps the invariant and only adds files and records |
| ImageStore.RecordsPoint | src/idfsserver.cc:212-249 | in every interleaving a record points to an existing file, which is never rewritten |
| ImageStore.OneAnswer | src/idfsserver.cc:218-246 | with reliable lookups an id has one record and all uploads of it return the same path and size |
| ImageAnswers.KnownIsAnswered | src/idfsserver.cc:217-249 | whatever other threads do in between, an upload whose id has a record, and whose lookup and select succeed, is answered with that record and gives up the lock |
| ImageAnswers.SameAnswerAgain | src/idfsserver.cc:217-249 | with reliable lookups an upload of an image that was answered before gets exactly the earlier answer |
| ImageAnswers.NewIsStored | src/idfsserver.cc:217-249 | an upload of a new id, none of whose parts fails, leaves its bytes under its path for good, its record in the database and its answer, and gives up the lock |
| ImageAnswers.FailureCodes | src/idfsserver.cc:220-245 | -54, -56 and -57 for a failing select, size and insert |
| ImageAnswers.SaveFailureCode | src/idfsserver.cc:229-233 | -55 for a new file that cannot be opened or written |
| ImageAnswers.FailedLeaves | src/idfsserver.cc:220-249 | a failed upload leaves no answer behind, and the lock is free |
| ImageAnswers.LockIsGivenUp | src/idfsserver.cc:217-249 | whatever fails, a thread gives up the lock within five steps of its own |
| ImageStore.FilesHash | src/idfsserver.cc:212-249 | if no write was cut short and no data lost at closing, every stored file hashes to the id in its name |
| ImageStore.Created | src/idfsserver.cc:224-249 | every file was created by the saving step of some upload |
| ImageStore.FileAsCreated | src/idfsserver.cc:212-249 | a file holds for ever what that step wrote, and hashes to the id in its name if that write was neither cut short nor lost data, whatever became of other writes |
| ImageStore.AnsweredAsFound | src/idfsserver.cc:224-249 | an upload whose file is there already, truncated or not, can be answered with that file as it is |
| ImageServer.IdfsServer.SaveImage | src/idfsserver.cc:417-441 | an existing file is left alone (1); a new one is written whole (0), loses data unnoticed when it is closed (0), is cut short (-3) or not opened (-2) |
| ImageServer.IdfsServer.Lookup | src/idfsserver.cc:212-222 | each action up to fetching the record is a step of the store |
| ImageServer.IdfsServer.Save | src/idfsserver.cc:224-249 | each action from saving the file to giving up the lock is a step of the store |

## Left out

- Sockets, HTTP, databases, caches, image libraries, logging, configuration: input and output only; their outcomes are parameters.
- The XML reply of an upload and its overflow codes, and the download of an image by address: string formatting and network access around the modelled transaction.
- Floating point: the range of exponents of doubles, so numbers that overflow or underflow, the last bit of `pow`, and exponents too long for an int; norm and cosine distances are not modelled.
- Allocation failure in the JSON, graph and tokenizer code and in the constructor of the hash table.
- JSON error pointer, `valueint`, and text that ends inside an escape, comment or literal, where the source reads past the end: the parser model fails there.
- What the JSON reader accepts beyond the grammar of RFC 8259, such as leading zeros, a missing integer part and control bytes in strings: the reader model does the same, and no grammar of these texts is given.
- CJsonMinify.Minify: covers the texts whose strings and comments are closed, because the source reads past the end of any other.
- CJsonMeaning.MinifyKeepsMeaning: goes one way; a text with an escape that runs into a quote may still mean the same afterwards, for instance when it holds no blanks.
- Removal from the red-black tree: the mirrored half of the removal fix-up compares where it should assign, so the colour properties do not survive it.
- `Q_Quick_Sort`, `Q_Merge_Sort`, the two- and three-key sorts and the parallel sort: they do not end, do not compile or do not compare consistently.
- Names of the index files, and opening one whose sizes do not fit together.
- The hash table with values of varying length, a bucket named that is not the key's own, and a traversal while the table is being changed: the traversal cursor may then point at a returned chunk.
- HashSearch.QHashSearch.Traverse: must not be called again after it returned -1 without a new preparation, because the source then follows a null pointer.
- LbScheduler.QLBScheduler.GetServerWRR: covers the calls that end; `LbScheduler.EndsExactly` says which do.
- Hash-based scheduling, whose probe index is not wrapped.
- The dictionary trie of the word tokenizer, which is any map from a position to the ends of words there; part-of-speech output and character set conversion.
- Hexadecimal rendering of MD5 digests, and updates after finalization, which the interface does not allow.
- Fairness of the thread scheduler: progress of the hand-off is proved as a bound on the moves that serve clients.
- Containers that add only easy members: stack, vector, list, bitmap, object pool.
