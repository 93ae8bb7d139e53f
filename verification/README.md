# Senna: a verified model of the engine's in-memory cores

Senna is an embeddable full-text search engine. Its hard parts are data structures and codecs whose
meaning is simple (a map, a set of reachable objects, a sequence) and whose form is not: postings
packed into words, byte streams and linked records; a tree that links back to itself; a marker that
turns pointers around; probing, skipping and leapfrogging loops. This project states those simple
meanings and proves that the code's form has them, for every input and every run.

Objects that the code changes in place are classes, and loops are loops. Every such method is tied
to a specification (a function, a map or a set), and the properties are proved of that.

**Inverted index** (`ByteCodec`, `PostingCodec`, `Records`, `BufferList`, `Merging`, `PostingWriters`,
`ChunkReaders`, `FlushTerms`, `Buffers`, `HeaderCosts`, `ImageBounds`, `BufferSizes`, `FlushBuffers`,
`WordArrays`, `IndexStates`, `SpaceAccounts`, `InvertedIndex`, `Runs`, `Cursors`). A term's postings are
one packed word, or a compressed chunk and a sorted list of records with jump pointers in a buffer. The
specification is a map from sections (document, section) to a score and positions, and a state that says
where every term is, how full the buffers are and which space is taken. That state decides what becomes
of every update and delete, in any run: it applies to the map, with whatever flushes and moves it takes,
or it is dropped, or there is no room. A flush changes no term's postings, and a cursor, which merges
chunk and buffer lazily, lists exactly the map in order, with the positions.

**Space** (`ChunkSpaces`). The runs of chunk space that buffers own are always apart, within one file,
and exactly what is marked. A flush writes its new chunk into a run that it reserves before it knows how
large the chunk gets, the size of the old one and a segment: that this is always enough is proved from
the codes up, by what one more posting costs in a header stream whose flags look one posting ahead.

**Lexicon** (`KeyBits`, `Patricia`, `Lexicon`, `PrefixSearch`, `CommonPrefix`). The Patricia tree with
links back is a map from keys to ids; what prefix search and common prefix search find is exact.

**Query language** (`Marking`, `Collecting`, `SchemeValues`, `SchemeEval`, `SchemeMachine`,
`SchemeForms`, `SchemeRules`, `SchemeSim`, `SchemeOpexe`). Marking by pointer reversal marks what is
reachable and restores the graph; the collector frees exactly the objects that no register reaches; and
the register machine computes what a program means, by a big-step definition of the forms, and runs for
ever exactly when that has no value. `SchemeRules` derives from that definition what every form means by
the meanings of its parts, with the frames and bindings written out.

**Search** (`CursorHeap`, `Tokens`, `PhraseSearch`, `IndexSearch`). The heap of cursors is one stream in
order, and the two-level join finds exactly the sections in which the phrase starts, and how often; the
streams are those of the index's own cursors, so that a search is stated by the maps of the index.

**Segments** (`SegmentRefs`). Any number of threads, one atomic access at a time: who holds a segment
has it mapped, a segment can be held again unless a mapping has failed, and it can always be taken away
again. What a whole call of ref or expire does to any state, when nobody comes between, is exact.

**Sets and sorting** (`Probing`, `HashSets`, `SetOps`, `LimitedSort`). Open addressing with tombstones is
a map; the sort that stops at a limit is a permutation whose first items are in order.

**Snippets** (`BoyerMoore`) and **jagged arrays** (`JaggedSpaces`, `JaggedArrays`). The matcher misses no
occurrence; the store gives back what was put last, and its elements never overlap.

Where the code does not do what its callers expect, the project says when:

* `sen_inv_update` returns success and drops the posting when `buffer_new` finds no segment for it.
  `Runs.DroppedUpdate` is such an update; `IndexStates.UpdateFates` says of every update, from the
  state before it, whether it is accepted, dropped or refused, and `IndexStates.SearchFails` when there
  is no segment.
* `sen_io_seg_ref` (unlike the macro) keeps its increment when mapping fails. `SegmentRefs.LeakRun` is a
  run in which it does; `SegmentRefs.ComesBack` shows that the segment can be held again exactly if
  that has not happened.
* The matcher for a keyword of one byte looks at one occurrence per call and gives up when that one
  has a zero check. `BoyerMoore.OneByteMisses` is a text in which it misses one, and
  `BoyerMoore.SnipCond.SearchByte` says exactly when.
* Prefix search can miss a key that no link from a node with a smaller check leads to, which takes a
  byte 0x01 in a key. `PrefixSearch.MissedKey` is a run after which it does, and `PrefixSearch.Search`
  says exactly which keys are found.
* Common prefix search finds the empty key only when the bits of the input lead to it
  (`CommonPrefix.Search`); `CommonPrefix.MissedEmpty` is a run in which it does not.
* In the query language `and` goes on after the empty list, although `if` and `or` take it for false:
  `SchemeForms.AndAfterEmpty` is such a program, and `SchemeForms.AndIsIf` says of every `and` form when
  it means what the nested `if` form means.

## Model

| member | source | states |
|---|---|---|
| ByteCodec.DecEncB | lib/io.h:243-356 | decoding, skipping and copying a variable-length integer all stop exactly behind its code, for every 32-bit value and whatever follows |
| PostingCodec.DecEncC | lib/inv.c:845-918 | the combined gap and count code inverts for every gap and count of at least 1, and never starts with a byte that is taken for a flag |
| PostingCodec.ReadHeadersBack | lib/inv.c:1010-1063 | whatever flags the writer's one-posting lookahead chose, the reader ends the first header with the same flags, id, count and score, in front of the next header |
| PostingCodec.ReadGapsBack | lib/inv.c:1028-1063 | a list of gaps reads back |
| PostingCodec.ReadPostingsBack | lib/inv.c:1010-1063 | header and position streams of any strictly increasing list of postings decode to that list, from any agreeing flag state |
| Records.PositionsBack | lib/inv.c:766-768 | positions come back from their gaps, with 32-bit wrap-around |
| Records.GapsBack | lib/inv.c:766-768 | and gaps from the positions they give |
| Records.ReadRecordBack | lib/inv.c:1082-1113 | an encoded record reads back to its id, count, score and gaps |
| Records.EncodeRec | lib/inv.c:740-772 | the bytes of a record encode the update, or for a deletion its id alone, and are padded to four |
| BufferList.PutSpecMeaning | lib/inv.c:502-626 | inserting keeps the order; afterwards there are the new record and every old one that it does not supersede, where section 0 supersedes the whole document |
| BufferList.SetJump | lib/inv.c:393-422 | a redirected jump to a larger key leaves list, jumps and keys in order |
| BufferList.Segment.SetJumpR | lib/inv.c:474-491 | handing a jump down the list keeps the list, and every live jump leads to a strictly larger key |
| BufferList.Segment.BufferPut | lib/inv.c:502-626 | the walk over steps and jumps, with all its retuning, ends with the list that plain insertion gives; it terminates, and the list is never found to be a loop |
| Merging.MergeMembers | lib/inv.c:1118-1150 | a posting survives the merge exactly when it is in the chunk and not superseded, or is added by the buffer |
| Merging.MergeSorted | lib/inv.c:1118-1150 | the merge is strictly increasing and holds only postings worth storing |
| Merging.PutApplies | lib/inv.c:502-626 | putting a record into the buffer changes the merged map by exactly that update or deletion |
| Merging.ListOfMap | lib/inv.c:1755-1850 | two ordered lists with the same map are the same list |
| PostingWriters.PostingWriter.Put | lib/inv.c:1030-1063 | writing a posting with one posting of lookahead keeps the streams on the way to those of the whole list |
| PostingWriters.PostingWriter.Finish | lib/inv.c:1152-1159 | after the last header the streams are those of the whole list |
| ChunkReaders.ReadImageBack | lib/inv.c:1174-1183 | a chunk image reads back to the postings that were written |
| ChunkReaders.ChunkReader.Step | lib/inv.c:1010-1025 | reading a header moves on by exactly one posting |
| FlushTerms.MergeTerm | lib/inv.c:988-1160 | the interleaved reading and writing of one term writes exactly the streams of the merge of chunk and buffer |
| FlushBuffers.PackedIdBack | lib/inv.c:1203-1209 | a packed word is odd and gives back its document and section |
| HeaderCosts.GapInsert | lib/inv.c:1030-1063 | one more section gap in a header stream costs at most the code of the gap and two flags, wherever it comes, and one less never costs anything |
| HeaderCosts.GapSplit | lib/inv.c:1030-1063 | the same for a gap that is cut in two; joining two costs at most four bytes |
| HeaderCosts.ScoreInsert | lib/inv.c:1030-1063 | one more score costs at most its code and a flag, and one less nothing |
| ImageBounds.HeaderParts | lib/inv.c:1030-1063 | the length of a header stream is that of its counts, its gaps and its scores, each with its own flags |
| ImageBounds.MergeOne | lib/inv.c:988-1160 | merging one record (an update, a deletion, or that of a whole document) into a list adds no more bytes to its headers and positions than the record takes in the buffer |
| ImageBounds.MergeCost | lib/inv.c:988-1160 | and so for all records of a term |
| BufferSizes.RecordsFit | lib/inv.c:337-357 | the records in use take no more than the part of the segment behind the slots, as they do not overlap |
| FlushBuffers.ImagesFit | lib/inv.c:943-950 | the images that a flush of a buffer writes, and the headers and positions of each term before that, fit the space reserved for them: the old chunk and one segment |
| FlushBuffers.FlushSlot | lib/inv.c:1161-1219 | what replaces a term (nothing, a packed posting, or an image) means the merged postings |
| FlushBuffers.FlushInto | lib/inv.c:920-1249 | every slot of the new buffer has the postings of the old one, in a chunk or in the term's word, and the words of other terms stay; the new chunk is no larger than the old one and a segment |
| WordArrays.WordsFlushed | lib/inv.c:1185-1219 | after a flush every word is still empty, a packed posting, or the address of a slot of its own term |
| Buffers.PutSlot | lib/inv.c:502-626 | a record put into a buffer applies to its term's map and to no other |
| Buffers.NewSlot | lib/inv.c:293-359 | a new slot and its space are taken from what is unused; the other slots stay |
| IndexStates.SearchFails | lib/inv.c:293-345 | the search over segments, in strides, around and over the rest, fails exactly when the records are longer than a segment, or every segment has a buffer that is not capable (or is the first one, and segmax has run over), or the segment it comes to has none and no physical segment is left |
| IndexStates.UpdateMaps | lib/inv.c:1385-1532 | whatever is packed, moved or flushed on the way, an update applies to its term's map exactly if it is accepted, and to no other |
| IndexStates.DeleteMaps | lib/inv.c:1535-1604 | the same for a deletion |
| IndexStates.UpdateFates | lib/inv.c:1385-1532 | an update is refused exactly when its term can have no word, or its buffer has no room and no flush can make any; otherwise it is dropped, with success, exactly when it needs a slot and the search for a segment fails in the state after the flush, if there is one; otherwise it is accepted |
| IndexStates.DeleteFates | lib/inv.c:1535-1604 | a deletion is refused exactly when its term has no array segment, or its buffer has no room and no flush can make any; otherwise it is accepted |
| SpaceAccounts.FoundFirst | lib/inv.c:293-327 | the segment that the search comes to is the first that takes the records: in strides from the hint up to segmax, then around the first segments, then behind them, and else the first without a buffer |
| SpaceAccounts.FlushLeaves | lib/inv.c:920-1249 | a flush empties its buffer but for the slots, voids those of the terms whose postings fit into a word, and takes these terms and no others out of it |
| SpaceAccounts.UpdateSpends | lib/inv.c:1385-1532 | an update takes the bytes of its record (and of a packed posting that it moves) from the buffer its term is in afterwards, and nothing from any other; a flush gives all bytes back |
| SpaceAccounts.DeleteSpends | lib/inv.c:1535-1604 | the same for a deletion |
| SpaceAccounts.UpdateHomes | lib/inv.c:1385-1532 | an update takes its own term and no other into a buffer: that of the segment the search comes to, into its first void slot or a new one, and only if the term is in no buffer (or has just left it) and does not stay in a word; the array segment of the term is assigned from then on, and the space for chunks changes by a flush only |
| SpaceAccounts.DeleteHomes | lib/inv.c:1535-1604 | a deletion moves terms by a flush only |
| InvertedIndex.Inv.Flush | lib/inv.c:920-1249 | no term's postings change; the terms whose postings fit into a word leave the buffer, and all sizes and the space for chunks are as foretold; it fails exactly when no physical segment is left, or there is no room for the old chunk and a segment |
| InvertedIndex.Inv.FindSegment | lib/inv.c:301-327 | the three loops end at the segment that the state foretells |
| InvertedIndex.Inv.BufferNew | lib/inv.c:293-336 | ... and there is a buffer in it, or a physical segment for one, or the search fails |
| InvertedIndex.Inv.GetWord | lib/inv.c:643-658 | a term gets a word exactly when its id is not too large, and its array segment is assigned or a physical segment is left |
| InvertedIndex.Inv.Update | lib/inv.c:1385-1532 | the whole state, the fate of the update and the return code are those that the state before foretells; the update applies to its term's map and no other, or no map changes |
| InvertedIndex.Inv.Delete | lib/inv.c:1535-1604 | the same for a deletion (section 0: of the whole document); without an array segment for the term it is an invalid argument |
| InvertedIndex.Inv.OpenCursor | lib/inv.c:1617-1680 | a fresh cursor has the term's whole list before it; there is none when the word is 0, and then the list is empty |
| Runs.Run | lib/inv.c:1385-1604 | any run of updates and deletes ends in the state that the first one foretells; every return code is that of the call's fate there, and every term's map is the effect of the accepted calls, in order |
| Runs.NewCounted | lib/inv.c:1297-1297 | a new index counts nothing |
| Runs.RunCounted | lib/inv.c:1221-1243 | in any run total_chunk_size stays the sum of the chunk sizes of all buffers in units of 1024 bytes, with 32-bit wrap-around |
| Runs.RunEffect | lib/inv.c:1385-1604 | the maps of the foretold state are the effect of the calls that it says are accepted |
| Runs.LastWriteWins | lib/inv.c:1385-1604 | the last call about a section decides whether it has a posting, and with which score and positions |
| Runs.DroppedUpdate | lib/inv.c:1510-1511 | an update with increasing positions, all below 2^31, that reports success on a term without postings and keeps nothing |
| Cursors.Cursor.Next | lib/inv.c:1755-1850 | the lazy merge lists exactly the merged postings, one by one, and then ends; its error branch is never taken |
| Cursors.Cursor.NextPos | lib/inv.c:1852-1890 | the positions of the current posting, one by one, and then no more |
| ChunkSpaces.ChunkSpace.New | lib/inv.c:180-206 | the first place where the units fit within one file is marked; it fails exactly when they fit nowhere |
| ChunkSpaces.FileHolds | lib/inv.c:199-200 | a run within one file is no longer than the file, which keeps every chunk below 2^32 bytes |
| ChunkSpaces.Reowns | lib/inv.c:1233-1244 | clearing what a buffer owned and marking a free run for it keeps the runs apart, in one file each, and the marks their union |
| ChunkSpaces.SpaceAfterIs | lib/inv.c:943-1244 | a flush takes the first place where its old chunk and a segment would fit in one file, keeps of it what its new chunk needs, and frees the old one |
| ChunkSpaces.ChunkSpace.Flush | lib/inv.c:943-1244 | reserving, trimming and giving back conserve the space and leave the run that the space before foretells; nothing changes when there is no room or mapping fails |
| Marking.MarkedAll | lib/scm.c:213-264 | when the marker is back at its root, the graph is as it was and exactly the old marks and what the root reaches are marked |
| Marking.ReachesLeast | lib/scm.c:213-264 | what is reached is exactly what is in every set with the root in it that no car or cdr of a referring cell leads out of |
| Marking.ObjMark | lib/scm.c:213-264 | pointer reversal terminates, marks exactly what is reachable, and restores every car, cdr and flag |
| Collecting.Ctx.Mgc | lib/scm.c:266-306 | an object stays exactly if the global environment, args, envir, code, dump, value or the placeholder list reaches it; what is left has its car, cdr and flag as before and refers to nothing freed |
| SchemeValues.BindsArgs | lib/scm.c:1295-1316 | in the frame of a call every name has the value of the last parameter of that name |
| SchemeValues.FindIs | lib/scm.c:1235-1241 | a name is found exactly in the first frame on the way out that binds it, at the first binding there; it is not found exactly if no frame on the way binds it |
| SchemeValues.AssignsOne | lib/scm.c:1365-1378 | an assignment changes the value at its place and no other, and no name is found elsewhere than before |
| SchemeValues.DefinesOne | lib/scm.c:1350-1358 | after a definition the name has the value in its frame, and every other name there and every other frame is as before; a binding is added exactly if there was none |
| SchemeRules.ConstantRule | lib/scm.c:1259-1261 | what is neither a symbol nor a pair is its own value |
| SchemeRules.QuoteRule | lib/scm.c:1333-1334 | quote gives its operand |
| SchemeRules.KeywordRule | lib/scm.c:1233-1234 | a keyword stands for itself |
| SchemeRules.VariableRule | lib/scm.c:1235-1245 | a variable has the value of its first binding in the innermost frame, if that binds it |
| SchemeRules.OuterRule | lib/scm.c:1235-1245 | without a binding there it means what it means outside |
| SchemeRules.UnboundRule | lib/scm.c:1246-1250 | a name that nothing binds is an error, unless it is that of a function |
| SchemeRules.BeginRule | lib/scm.c:1380-1388 | the expressions of a body one after the other; the last one gives the value |
| SchemeRules.IfRule | lib/scm.c:1390-1401 | the third expression after #f and the empty list, the second after anything else |
| SchemeRules.IfNoElse | lib/scm.c:1395-1401 | without a third expression it is the empty list |
| SchemeRules.CondRule | lib/scm.c:1503-1525 | the first clause whose test is true gives the value, by its body or by the test alone |
| SchemeRules.ConnectRule | lib/scm.c:1533-1569 | `and` has the value of its first operand that is #f, `or` that of its first one that is neither #f nor the empty list, each that of its last operand if there is none; the operands behind are not evaluated |
| SchemeRules.ConnectEmpty | lib/scm.c:1533-1556 | without operands `and` is #t and `or` is #f |
| SchemeRules.LambdaRule | lib/scm.c:1330-1331 | lambda gives a closure of its parameters and body with the current environment |
| SchemeRules.ApplyRule | lib/scm.c:1263-1316 | operator and operands from left to right, and then the body in a new frame inside the environment of the closure, where the parameters have the arguments as values |
| SchemeRules.ApplyFails | lib/scm.c:1288-1324 | too few arguments are an error, and so is an operator that is no function |
| SchemeRules.NativeRule | lib/scm.c:1288-1291 | a native function is given the values of the operands, in order |
| SchemeRules.EvalRule | lib/scm.c:1642-1645 | eval means what the value of its operand means |
| SchemeRules.ApplyListRule | lib/scm.c:1637-1640 | apply gives a closure the elements of a list as its arguments |
| SchemeRules.ForceRule | lib/scm.c:1668-1675 | force evaluates the body of a promise in a new frame inside its environment, and leaves other values as they are |
| SchemeRules.FirstFails | lib/scm.c:1231-1582 | an error in the first expression of a form or in the operator is the error of the whole |
| SchemeRules.Shadows | lib/scm.c:1235-1316 | ((lambda (x) x) y) is the value of y, whatever x is outside |
| SchemeRules.DelayRule | lib/scm.c:1527-1531 | delay gives a promise of its body |
| SchemeRules.StreamRule | lib/scm.c:1571-1582 | cons-stream is a pair of a value and a promise of the rest |
| SchemeRules.DefineRule | lib/scm.c:1336-1358 | define binds the value in the current frame and gives the name |
| SchemeRules.DefineFunction | lib/scm.c:1337-1340 | a definition with parameters defines a closure of them |
| SchemeRules.SetRule | lib/scm.c:1360-1378 | set! changes the binding at which the name is found after its expression has been evaluated, and fails without one |
| SchemeRules.LetRule | lib/scm.c:1403-1441 | the expressions of a let in turn, outside its frame, and then the body in a new frame with the names and values |
| SchemeRules.LetFails | lib/scm.c:1409-1413 | a binding that is no list of the right form is an error |
| SchemeRules.NamedLetRule | lib/scm.c:1429-1437 | with a name in front that is, in the new frame, the closure of the names and the body |
| SchemeRules.LetStarRule | lib/scm.c:1443-1472 | the first expression outside the new frame, and every other one in it with the bindings before it |
| SchemeRules.LetStarEmpty | lib/scm.c:1443-1448 | without bindings a let* has a new frame only |
| SchemeRules.LetRecRule | lib/scm.c:1474-1501 | the expressions in the new frame, and then the names and values in front of what is there |
| SchemeForms.AndIsIf | lib/scm.c:1533-1551 | an `and` form means the same as the nested `if` form exactly when no operand before the last evaluates to the empty list, or what comes after it has the value #f and leaves the bindings alone |
| SchemeForms.AndAfterEmpty | lib/scm.c:1533-1551 | a program in which `and` goes on after a value that `if` takes for false |
| SchemeSim.Sim | lib/scm.c:1231-1441 | from the evaluation of an expression (without macros and continuations) with any dump the machine comes to a return of its value with that dump, or stops for the same reason, or is still running |
| SchemeSim.SimItems | lib/scm.c:1274-1286 | operands are evaluated from left to right and end up in that order |
| SchemeSim.SimLet | lib/scm.c:1403-1441 | let and named let |
| SchemeSim.SimLetStar | lib/scm.c:1443-1472 | every expression of a let* sees the bindings before it |
| SchemeSim.Correct | lib/scm.c:1231-1324 | the machine stops with a value and bindings exactly when the program means them |
| SchemeSim.Diverges | lib/scm.c:1231-1324 | it runs for ever exactly when the program has no meaning at any depth |
| SchemeSim.SameMeaning | lib/scm.c:1231-1324 | the meaning of a program does not depend on how deep the evaluation may go |
| SchemeOpexe.Ctx.Opexe | lib/scm.c:1153-1582 | changing the registers one by one, with its loops over frames and lists, does one step of the machine (without macros, case and continuations) |
| SchemeOpexe.Interpret | lib/scm.c:1936-1960 | a cycle that comes back has the value, or the error, that the program means; it goes on exactly if the machine has not stopped within that number of steps |
| SchemeOpexe.SomeCycle | lib/scm.c:1936-1960 | for a program that means something some number of operations is enough |
| KeyBits.PrefixFree | lib/sym.c:612-614 | keys with their terminating byte, or of one size, are never prefixes of each other |
| KeyBits.FindDiff | lib/sym.c:635-636 | the first bit at which two keys differ, with all bits before it the same |
| Patricia.GraftSorted | lib/sym.c:690-702 | a new node on the way of a key keeps all keys below a node in agreement on the bits before its check |
| Lexicon.Sym.Place | lib/sym.c:616-659 | the link and the bit chosen for a new key, in each of the cases, give a tree in order; a key that is found is the one looked for |
| Lexicon.Sym.At | lib/sym.c:756-779 | the id of a key, or 0 when it was never added |
| Lexicon.Sym.Get | lib/sym.c:605-704 | the id given at the first insertion, or a new one and then a map with that key added; keys that are too long change nothing |
| PrefixSearch.GetTc | lib/sym.c:795-818 | exactly the nodes below: all on a way down, and of the links back those that check before the end of the prefix |
| PrefixSearch.Search | lib/sym.c:820-844 | the ids found are of the keys with the prefix whose nodes check one of its bits, or that a link from a node with a smaller check leads to; without bytes 0x01 these are all |
| PrefixSearch.LastMissed | lib/sym.c:795-844 | in the nodes of ten keys a key with the prefix that no such link leads to |
| PrefixSearch.MissedKey | lib/sym.c:605-844 | ten insertions, after which a prefix search misses a key |
| Patricia.InnersEntered | lib/sym.c:795-818 | the nodes on a way down are those that a link from a node with a smaller check, or the header, leads to |
| CommonPrefix.Search | lib/sym.c:891-934 | the id found is of a key that the input starts with, and no stored non-empty key with that property is longer; it is the empty key exactly when the bits of the input lead to a link back to that |
| CommonPrefix.MissedEmpty | lib/sym.c:891-934 | a run in which the empty key is not found |
| SegmentRefs.StepKeeps | lib/io.h:148-201 | every atomic step of ref, unref and expire keeps the invariant |
| SegmentRefs.ProtocolSafe | lib/io.c:906-996 | in every interleaving a held segment stays mapped, one thread at a time maps it or takes it away, and the counter is the number of increments, with MAX_REF for one expiring thread and one leaked increment at most |
| SegmentRefs.RefAlone | lib/io.c:906-944 | a call of ref that nobody comes between holds a mapped segment, however many others hold it, unless another thread has added MAX_REF; it maps an unmapped one exactly if it is alone, and otherwise leaves everything as it was |
| SegmentRefs.ExpireAlone | lib/io.c:957-999 | a call of expire that nobody comes between leaves the segment unmapped and the counter 0 if nobody else is in the protocol and nothing leaked, and otherwise changes nothing |
| SegmentRefs.GoesAway | lib/io.c:906-999 | from any state of any run some run ends with nobody in the protocol and the segment not mapped |
| SegmentRefs.BacksOff | lib/io.c:957-999 | in any run, an expire backs off only if during the call another thread was in the protocol, or an increment had leaked |
| SegmentRefs.NeverNull | lib/io.h:169-188 | a map pointer that was read as set is still set when it is read again |
| SegmentRefs.QuietCounter | lib/io.c:906-996 | with no thread in the protocol the counter is 0 exactly if no mapping in sen_io_seg_ref has failed |
| SegmentRefs.LeakRun | lib/io.c:932-944 | a run in which one has |
| SegmentRefs.StuckForever | lib/io.c:932-944 | after that nobody holds the segment again in any run, and it is not mapped |
| SegmentRefs.ComesBack | lib/io.c:906-996 | from any state of any run some run comes to hold the segment, exactly if no mapping in sen_io_seg_ref has failed |
| Probing.AllProbed | lib/set.c:31 | the odd step visits every slot of a table whose size is a power of two |
| HashSets.HashSet.At | lib/set.c:188-249 | a key is found exactly when it is in the map, with its value; tombstones hide nothing and probing ends |
| HashSets.HashSet.Get | lib/set.c:251-367 | a missing key is added, growing the table when it is half full; an old one is found; nothing else changes |
| HashSets.HashSet.Del | lib/set.c:369-383 | the key is gone from the map and every other entry stays in its slot |
| HashSets.HashSet.Reset | lib/set.c:97-137 | rehashing keeps every entry and drops the tombstones; it fails, and changes nothing, exactly for 2^30 entries and more |
| SetOps.Union | lib/set.c:697-730 | the union, with the values of the first set kept |
| SetOps.Subtract | lib/set.c:732-758 | the entries of the first set whose keys are not in the second |
| SetOps.Intersect | lib/set.c:760-786 | the entries of the first set whose keys are in the second |
| SetOps.Difference | lib/set.c:788-817 | what is in both leaves both, and is counted |
| LimitedSort.Pack | lib/set.c:454-480 | all entries, on the two sides of the first one |
| LimitedSort.Part | lib/set.c:482-509 | a permutation with a pivot between smaller and larger ones, within bounds, or a short range in order |
| LimitedSort.Sort | lib/set.c:511-521 | a permutation whose first entries, up to the limit, are in order of their values, up or down, and none of them after any later one |
| LimitedSort.SetSort | lib/set.c:630-668 | the entries of the index, each as often as there, with values that go up (or down) through the first ones up to the limit and on to all later ones; 0 and limits that are too large mean all |
| BoyerMoore.PreBmBc | lib/snip.c:74-84 | no skip of the table passes over a place where the keyword could end |
| BoyerMoore.SnipCond.Search | lib/snip.c:130-207 | the next occurrence that starts at a byte with a non-zero check, through the unrolled loop and the plain one, or that there is none |
| BoyerMoore.SearchAll | lib/snip.c:86-118 | repeated calls give exactly the occurrences that count, overlapping ones too, from left to right |
| BoyerMoore.SnipCond.SearchByte | lib/snip.c:146-157 | the next occurrence that counts; nothing is reported while one is left exactly when the first occurrence has no check and a later one has |
| BoyerMoore.SearchAllBytes | lib/snip.c:86-157 | repeated calls give the occurrences that count, up to the first one without a check |
| BoyerMoore.OneByteMisses | lib/snip.c:146-157 | a text in Shift-JIS, with the checks of its normalized bytes, in which a keyword of one byte is missed |
| CursorHeap.SiftUp | lib/index.c:103-111 | after a push the heap is in order with the same cursors and the new one |
| CursorHeap.SiftDown | lib/index.c:161-191 | after the root has changed the heap is in order again, with the same cursors |
| CursorHeap.RootFirst | lib/index.c:155-159 | the position of the root comes before all others still to be listed |
| Tokens.PopPos | lib/index.c:210-227 | one cursor less lists the first hit, and all others are listed as often as before |
| Tokens.TokenInfo.Skip | lib/index.c:393-408 | on to the first hit in a section or behind it, with no hit lost there; it fails exactly when there are none |
| Tokens.TokenInfo.SkipPos | lib/index.c:410-426 | within a section, on to the first hit that can start the phrase there, with no other hit lost |
| Tokens.OpenToken | lib/index.c:312-392 | a token lists what its cursors list, from the first hit on |
| PhraseSearch.CountPhrase | lib/index.c:2397-2413 | going round the tokens counts exactly the positions at which the phrase starts |
| PhraseSearch.CountOne | lib/index.c:2407-2412 | an agreement of all tokens is one more start |
| PhraseSearch.Select | lib/index.c:2341-2419 | the sections listed are exactly those with every token in its place, in order, each with the number of starts; the search ends |
| PhraseSearch.SelectPhrase | lib/index.c:2269-2419 | the same from the cursors of the tokens, in any order; a token without cursors finds nothing |
| IndexSearch.OpenTerm | lib/index.c:65-113 | a cursor pushed for a term of the index lists exactly the hits that the index stands for, from the first one on; there is none when there are no hits |
| IndexSearch.PopDoc | lib/index.c:193-208 | moved on to the next section, the cursor of the index does what the stream of the heap does |
| IndexSearch.PopPos | lib/index.c:210-227 | and so for the next position |
| IndexSearch.StartsInIndex | lib/index.c:2341-2419 | a phrase starts where, for each of its tokens, the index has one of the token's terms in its place |
| IndexSearch.OpenTerms | lib/index.c:312-392 | the cursors of the terms of a token have exactly the hits of the terms' maps still to list; terms without hits have none |
| IndexSearch.SearchPhrase | lib/index.c:2269-2419 | from an index to the rows: exactly the sections in which the phrase starts, by the maps of the index, in order, each with the number of places |
| JaggedSpaces.PutApart | lib/store.c:806-839 | a new element overlaps no live one, also not the one it replaces |
| JaggedSpaces.FullSegment | lib/store.c:851-858 | a segment that an element fills has no other element, so setting its count to 0 is right |
| JaggedSpaces.FreeCounted | lib/store.c:832-866 | every segment's count is the number of its units in use, once the old element is taken out |
| JaggedArrays.Ja.AssignRec | lib/store.c:775-803 | a place for the element is found behind what is in use, or in a run of unused segments; it fails exactly when there is neither |
| JaggedArrays.Ja.Put | lib/store.c:805-868 | the value is stored and all other values stay; elements stay apart and counts exact; it fails exactly when there is no place |
| JaggedArrays.Ja.Ref | lib/store.c:722-745 | the value that was put last, or none |

## Left out

Inverted index:

- InvertedIndex.Inv.BufferNew: the search over segments ends at the table of 0x4000 when segmax is larger, which takes chunks of 2 GB, and shifts by 32 or more give 0.
- InvertedIndex.Inv.Flush: calls of sym_delete in a flush do not touch the lexicon; mapping never fails (`ChunkSpaces` says what becomes of the space when it does); the space is taken after the merge, which only writes memory of its own.
- Cursors.Cursor.Next: a cursor reads the term as it was when it was opened; updates while it is open are not modelled.
- Indexes that share a lexicon, indexes in the 0.8 format, and documents with id 0, which the code takes for the end of a list.
- Logging, reports of corrupt data that these proofs show not to occur, failing allocation and failing I/O.
- The asynchronous cursors (sen_inv_cursor_openv1 and openv2).

Lexicon:

- Deletion and reuse of ids, the lists of free nodes, suffix links, the limit on the number of ids and how nodes and keys lie in segments.

Query language:

- Marking.ObjMark: copying a bulk value whose memory the collector does not own is a change of owner only.
- Collecting.Ctx.Mgc: reference counts and flags that collection does not look at are not modelled.
- SchemeSim.Correct: pairs are values, so there is no set-car!, set-cdr!, case (which compares addresses), quasiquote, macro, property list or call/cc, and non_alloc_rev reverses a list without changing cells that others could see; environments do change in place, and set! of a name that is no symbol compares names by value. Native functions are any functions of their arguments. The reader, the top level and calls that wait for data are left out.
- Taking the car or cdr of a number, a symbol or a closure reads memory that is no pair; the machine stops there.

Search:

- PhraseSearch.SelectPhrase: exact mode with two or more tokens, op or, unit weights and no position records; scores, the near and similar modes, expansion of tokens and the tokenizer are left out, and so is the shortcut for one token. The heap holds cursors as values, which `IndexSearch` ties to those of the index.
- IndexSearch.SearchPhrase: as for SelectPhrase; cursors are read to their end before the search, where the code moves them on one hit at a time (`IndexSearch.PopDoc` and `IndexSearch.PopPos` are these moves). Positions in a section increase, and sections are below 2^32 - 1.

Segments:

- SegmentRefs.ProtocolSafe: without the reset of the counter after too many retries, for fewer than 2^31 threads; the count of mapped segments and the time stamps are left out, and a retry is a new call.

Sets, sorting, snippets, jagged arrays:

- HashSets.HashSet.Get: not for the last empty slot of an index of 2^31 slots, after which probing would not end; keys of the three kinds are one type with any hash function; chunks of entries, the list of free entries and sets that are plain arrays are left out.
- LimitedSort.SetSort: the order is that of an integer; sort_func, the same algorithm over a comparison function, and the overflow of the smallest integer times -1 are left out.
- BoyerMoore.SearchAll: offsets into the original text (start_offset, end_offset) are left out; an occurrence is its place in the normalized text.
- JaggedArrays.Ja.Put: ids in one entry segment, no defragmentation; with a second entry segment the code could choose the segment it is writing to, as it notes itself. Files are one stretch of bytes.
- The normalizers (lib/str.c), the database layer, networking, contexts and the shared cache would need tables or outside state, or would add easy members.
