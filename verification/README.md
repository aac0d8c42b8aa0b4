# A verified model of CSNOBOL4's core

CSNOBOL4 is a port of the SIL implementation of SNOBOL4. This project models the
parts of it whose correctness is least obvious, in the form the C code has
(classes with registers as fields, arrays written in place, loops), and proves
what they are for. One descriptor is the unit of address. `dafny verify
dfyconfig.toml` checks everything.

Five cores are modelled.

**Storage.** Memory is one array of descriptors. A block is a title and the
descriptors behind it; the dynamic region is tiled by blocks. `Soundness.Sound`
says what storage in order means, and every operation keeps it: `BLOCK`,
`SPLIT`, `LOCA1` and `GC`. The collector is proved stage by stage (exact
marking, forwarding addresses in the titles, relinking of the hash chains,
relocation of interior pointers, sliding), then as a whole: every descriptor of
every live block survives with only its address renamed, and a pointer leads to
the same offset in the same block. `Retention` says it cell by cell: what must
be kept, that nothing else is, and that a string's value and attribute go along.
The table of strings is canonical and stays so when a collection interrupts an
insertion. The registers of the search (`LSTPTR`, `BUKPTR`) are cells of a
permanent block, as in the program, so the collector relocates them.
`Collector.NewStorage` is where runs begin; every operation, a stored value
included, keeps storage and the table in order.

**Patterns.** `PatternAlgebra.Ends` lists, in order, the ways a pattern matches
from a cursor, with the captures made; it mentions no nodes and no heuristics.
`PatternMeaning` states its cases without the functions that list them.
`PatternCode.Block` says what node array belongs to a pattern, and the builders
(`CONCAT`, `OR`, `ARBNO`, `NAM5`) produce exactly that. `PatternMachine.Step` is
the walker as a transition system, `Scanner.Scanner` the imperative walker that
refines it step by step. The main theorem covers literals, LEN, POS, RPOS, TAB,
RTAB, ANY, NOTANY, SPAN, BREAK, ARB, BAL, ARBNO, concatenation, alternation and
conditional capture, in QUICKSCAN and in FULLSCAN, at any place inside a larger
pattern. FULLSCAN does not always stop; `FullAlgebra` says what it tries, and
`FullScan` proves when it stops.

**Expressions.** `EXPR2` builds an operator tree by surgery on father, son and
sibling links, leaving alone what hangs below the operands.
`Precedence.PrecedenceTree` says which tree is meant, by its in-order reading
and the precedences on its spines, and that there is only one;
`ExprTree.Compiler.Expression` builds it. `PrefixCode` flattens a tree and skips
over the code again; `PrefixCode.Compile` is both in one.

**tsort** (`bsdtsort.c`), from the words read to the lines written.

**Data structures.** `SORT1`, tables and their conversion, array addressing.

## Where the code and its comments differ

- In a pattern node's connector, `.a` is the alternate (`lib/pat.c:30`,
  `isnobol4.c:11495-11504`) and `.v` the successor (`isnobol4.c:11604`); the
  comment at `include/dt.h:269-270` has them the other way round. The model
  follows the code.

## What is required of callers

- A collection needs a live dynamic block, because the last block moved decides
  where free storage begins (`isnobol4.c:933-936`). It also needs one of three
  things: `MVSGPT > 0`, or something to throw away, or that no descriptor to be
  relocated is a null pointer. `MVSGPT` is set only when an unmarked block is
  found (`isnobol4.c:811-812`), and the relocation tests nothing but
  `address < MVSGPT` (`isnobol4.c:867-870`), so with `MVSGPT` at 0 it looks for
  the title of a null pointer; `Relocation.NullUntitled` says that there is
  none. `Soundness.Collectable` states the condition, and `Soundness.NullMet` that
  it is exact. Registers are null
  pointers at first (`Startup.FirstNulls`).
- Blocks are not empty, pointers lie inside their block, and pointers into a
  string block refer to its title, value or attribute. SPLIT is called for object
  code only (`isnobol4.c:2453`, `3362`, `14346`).
- FULLSCAN does not stop on every pattern: it repeats an ARBNO body even after a
  round that matched null (`isnobol4.c:11964-11966`). `FullAlgebra.FullEnds`
  lists what it tries and whether it then hangs; `PatternTheorems.FullscanStops`
  proves that it stops exactly when something is tried or nothing hangs
  (`FullAlgebra.Stops`), and that its answer is then the algebra's. The scanner
  requires no more. `PatternLoop` has an example of each kind, and
  `PatternTheorems.Repeatable` is a condition on the shape of the pattern that
  is enough. QUICKSCAN always stops: there a round that matched null is not
  repeated (`isnobol4.c:11967-11975`), and the algebra says so too.

## Model

| member | source | states |
|---|---|---|
| Collector.Storage.Top | lib/top.c:20-46 | the title found is the nearest one at or below the address, with the offset from it |
| Collector.Storage.Gcm | isnobol4.c:708-749 | the explicit stack and the unpushed last slot notwithstanding, everything reachable from the block is marked, nothing else is, and the stack is as before |
| Collector.Storage.Descend | isnobol4.c:735-747 | following a pointer into an unmarked block keeps the to-do stack a correct account of what is left to visit |
| Collector.Storage.MarkListed | isnobol4.c:760-771 | marks exactly what the permanent blocks reach |
| Collector.Storage.MarkStrings | isnobol4.c:772-795 | marks also what strings with a value or an attribute reach, by way of the pseudo-block, and nothing else |
| Collector.Storage.MarkAll | isnobol4.c:757-795 | after all marking, a dynamic block is marked if and only if it is live |
| Roots.MarkedExactly | isnobol4.c:708-795 | a dynamic block carries a mark if and only if it is reachable from a permanent block or from a string with a value or attribute, of strings following two slots only |
| Collector.Storage.Forward | isnobol4.c:796-824 | each live block's title holds the sum of the sizes of the live blocks below it; the barrier is at the first dead block |
| Forwarding.RoomBelow | isnobol4.c:796-824 | no block's new place is above its old one |
| Forwarding.RoomOrder | isnobol4.c:796-824 | live blocks keep their order and do not overlap at their new places |
| Survival.OrderKept | isnobol4.c:796-824 | renaming is injective and monotone on live blocks |
| Collector.Storage.RelinkChain | isnobol4.c:832-847 | a chain is rewritten to the new addresses of its live strings in the same order; nothing else changes |
| Collector.Storage.Relink | isnobol4.c:825-848 | so are all chains, the head cells included |
| Collector.Storage.RelocateBlock | isnobol4.c:864-877 | every pointer in a block is renamed once, with its offset kept; nothing else changes |
| Collector.Storage.RelocateDynamic | isnobol4.c:849-881 | the pointers of all marked dynamic blocks are renamed, of strings two slots |
| Collector.Storage.RelocateListed | isnobol4.c:882-905 | the pointers of the permanent blocks too, each once |
| Collector.Storage.MovBlk | isnobol4.c:925 | a block copied downwards onto itself arrives intact |
| Collector.Storage.SlideBlock | isnobol4.c:907-925 | one block arrives at its new place unmarked, and nothing outside the two places changes |
| Collector.Storage.Slide | isnobol4.c:906-936 | no move overwrites what is still to be read; free storage begins behind the last live block |
| Collector.Storage.Compact | isnobol4.c:796-936 | all four passes together: every cell is what the renaming says |
| Collector.Storage.Gc | isnobol4.c:751-959 | a whole collection regenerates storage and keeps the table of strings in order, and success is reported exactly when the request fits; MVSGPT may be 0 where no null pointer is followed |
| Soundness.MarksLive | isnobol4.c:757-795 | marking with the pseudo-block in use marks just what is live in the storage before it |
| Survival.SoundAgain | isnobol4.c:796-936 | a collection leaves storage in order: tiled, titled, its pointers inside blocks, its chains intact |
| Survival.LiveKept | isnobol4.c:796-936 | every descriptor of every live block is found at the same offset of its block's new place as it was before the collection, pointers leading to the same place of the same block |
| Survival.ListedKept | isnobol4.c:882-905 | so is every descriptor of a permanent block |
| Retention.LivingHolds | isnobol4.c:728-795 | a string on a chain whose value is not the null string, or that has an attribute, is live; so is any dynamic block that a cell of a listed or a live block points into, a string having two such cells, value and attribute, and other blocks all |
| Retention.LivingLeast | isnobol4.c:728-795 | and nothing else is: any set with these properties has all live blocks |
| Retention.CellsKept | isnobol4.c:849-936 | a live string is found at its new place with its value, its attribute and its characters, any other block with all its cells; a pointer leads to the same cell of the same block, which is live too |
| Retention.OnlyLiving | isnobol4.c:906-936 | no other block is there after a collection |
| Retention.ChainsKept | isnobol4.c:825-848 | the strings of a chain after a collection are those that were live |
| Collector.Storage.Block | isnobol4.c:2666-2697 | collects at most once, exactly when there is no room, and then gets a zeroed, titled block at the old free pointer; the failures are told apart; storage and the table of strings stay in order |
| Growth.EmptyAdded | isnobol4.c:2679-2682 | the new title and zeros behind it make one more block |
| Growth.AddedSound | isnobol4.c:2673-2683 | a new block leaves storage in order |
| Growth.SetSound | data_init.h:725-728 | setting a register of a permanent block leaves storage in order |
| Growth.StoreSound | isnobol4.c:8610-8613 | a value stored in a descriptor of a dynamic block leaves storage in order |
| Collector.Storage.Store | isnobol4.c:8610-8613 | such an assignment changes that descriptor only, and keeps storage and the table of strings in order |
| Relocation.NullUntitled | isnobol4.c:866-871 | with MVSGPT at 0 a null pointer passes the test, and there is no title below it |
| Soundness.NullMet | isnobol4.c:866-871 | where the condition for a collection fails although something is live, a descriptor is met that passes the test and has no title |
| Startup.FirstNulls | data_init.h:725-728 | the registers start as null pointers, so the first collection needs something to throw away |
| Startup.BeginsInOrder | data_init.h:1898-1918 | the permanent blocks with empty chains and no dynamic block are storage in order |
| Collector.Storage.constructor | data_init.h:725-738 | storage with given contents |
| Collector.NewStorage | data_init.h:725-738 | the storage that runs begin with is in order |
| Collector.Storage.LayOut | isnobol4.c:2679-2682 | the new block's cells, and no others, are written |
| Collector.Storage.Split | isnobol4.c:251-272 | makes two blocks of one exactly when something is left for the second, and else changes nothing; storage and the table of strings stay in order |
| Splitting.CutSound | isnobol4.c:258-270 | a split leaves storage in order, with the region tiled by one block more |
| Splitting.TableCut | isnobol4.c:258-270 | and so does the table of strings |
| Collector.Storage.Lexeq | isnobol4.c:3423-3425 | compares a string with the characters of a string block |
| Collector.Storage.Search | isnobol4.c:3411-3429 | finds the string if it is in its chain, and otherwise the place where it belongs, in spite of stopping at the first larger order number |
| Collector.Storage.Step | isnobol4.c:3415-3425 | one link of that walk |
| Collector.Storage.Regather | isnobol4.c:3463-3472 | a collection in the middle of an insertion: the table is in order and the registers are at the new place for the string |
| Collector.Storage.Enter | isnobol4.c:3436-3461 | the new string is laid out and linked at that place; its value is the null string and it has no attributes, or with CONVSW both are what they were; of what lies below it one link changes |
| Collector.Storage.Loca1 | isnobol4.c:3408-3474 | the address of the string: the old one if it was in the table, else a new block, entered once; the table is in order whether or not a collection happened; only a string that is not in the table can need one; a new string has the null string as its value and no attributes, and of what lies below it one link changes |
| Collector.Storage.PutChars | isnobol4.c:3451-3453 | the characters of the string are packed into descriptors, and read back are the string |
| Interning.Canonical | isnobol4.c:3408-3474 | strings in the table have the same address if and only if they are equal |
| Interning.InternedAgain | isnobol4.c:825-848 | a collection keeps every chain sorted by order number and without duplicates, in its own bin |
| Lookup.TableAgain | isnobol4.c:825-905 | a collection leaves the table of strings and the registers of the search in order, whatever these hold |
| Lookup.TableAdded | isnobol4.c:2673-2683 | so does a new block |
| Lookup.TableStored | isnobol4.c:8610-8613 | so does a stored value |
| Insertion.InsertAll | isnobol4.c:3443-3457 | the whole insertion keeps storage and the table in order |
| Lookup.InsertTable | isnobol4.c:3443-3461 | and keeps every string's text and the registers usable |
| Lookup.PlacingAgain | data_init.h:1898-1918 | registers that are roots make the interrupted insertion continue at the right place |
| PatternCode.CopyNode | lib/pat.c:97-128 | one node is copied with links relocated and lengths raised, and nothing else is written |
| PatternCode.Cpypat | lib/pat.c:79-132 | a whole pattern is copied so: links moved by the offset, open successors set, both lengths raised, the destination advanced |
| PatternCode.MovedCells | lib/pat.c:94-95 | relocating the cells of a pattern gives its cells at the new offset, with the new successor and the larger residual |
| PatternCode.CellsWalk | lib/pat.c:126-129 | the cells of every pattern can be walked node by node by their function's size |
| PatternBuild.Linkor | lib/pat.c:23-36 | the last alternate of the chain is redirected, and nothing else changes |
| PatternBuild.Redirect | lib/pat.c:23-36 | which gives the cells of the same pattern with that alternate |
| PatternBuild.Maknod | lib/pat.c:38-54 | one node with its function, connector, lengths and parameter |
| PatternBuild.Lvalue | lib/pat.c:56-77 | the least stored length along the alternates is the pattern's least length |
| PatternBuild.AltsChain | lib/pat.c:62-73 | the alternates of a pattern form a chain of offsets that ends at the given one |
| PatternBuild.Concat | isnobol4.c:8552-8567 | the block of the concatenation |
| PatternBuild.Or | isnobol4.c:9409-9424 | the block of the alternation |
| PatternBuild.ArbnoOf | isnobol4.c:9526-9549 | the block of ARBNO, from its three constant parts and the body |
| PatternBuild.NameOf | isnobol4.c:9479-9506 | the block of a conditional capture |
| PatternBuild.Primitive | lib/pat.c:38-54 | the block of a primitive; the character-set patterns refuse the null string |
| PatternBuild.PermanentBlocks | data_init.h:1937-1996 | the constant blocks of ARB and BAL are the blocks of these patterns |
| PatternAlgebra.SpanEnd | lib/stream.c:40-102 | the end of the longest run of the characters |
| PatternAlgebra.BreakEnd | lib/stream.c:40-102 | the first place of one of the characters, or the end |
| PatternAlgebra.Ends | isnobol4.c:11817-12007 | every match of a pattern consumes at least its least length and ends inside the subject |
| PatternMeaning.LeafMeaning | isnobol4.c:11655-11943 | what each primitive matches, by the characters between cursor and end |
| PatternMeaning.ArbMeaning | isnobol4.c:11986-12011 | ARB: every end, the nearest first |
| PatternMeaning.BalMeaning | isnobol4.c:12088-12131 | BAL: every non-empty string with as many ( as ) and nowhere before more ) than (, the shortest first |
| PatternMeaning.BalancedCounts | lib/bal.c:25-46 | balance, by the numbers of ( and ) in every prefix |
| PatternMeaning.BalancedSpelled | lib/bal.c:25-46 | balance, as what a grammar of nested parentheses spells |
| PatternMeaning.AltMeaning | isnobol4.c:11481-11505 | an alternation: the ways of the left, then those of the right |
| PatternMeaning.CatMeaning | isnobol4.c:11602-11609 | a concatenation: a way of the left, and a way of the right from where that ended |
| PatternMeaning.CatFirst | isnobol4.c:11602-11609 | its first way is by the first end of the left from which the right matches |
| PatternMeaning.CaptureMeaning | isnobol4.c:12446-12497 | a capture holds the span that was matched, behind the captures made in it |
| PatternMeaning.ArbnoMeaning | isnobol4.c:11945-11985 | ARBNO: any number of rounds, of which only the last may match null; no round first |
| PatternMeaning.ArbnoSecond | isnobol4.c:11945-11985 | one round comes before two |
| ScanTables.SynTab.Clertb | lib/stream.c:139-171 | every entry of the table is the action |
| ScanTables.SynTab.Plugtb | lib/stream.c:173-188 | just the entries of the characters are changed |
| ScanTables.SynTab.Stream | lib/stream.c:22-119 | stops at the first character whose entry is not CONTIN, and tells stopping from running out |
| ScanTables.StreamBreaks | isnobol4.c:11704-11730 | with BREAK's table that is the first of the characters |
| ScanTables.StreamSpans | isnobol4.c:11793-11804 | with SPAN's table it is the end of the run |
| ScanTables.Any | lib/stream.c:190-210 | whether the character is in the set |
| ScanTables.Getbal | lib/bal.c:14-47 | the shortest balanced extension within the room, if there is one |
| PatternCorrect.ShortBalCorrect | lib/bal.c:25-46 | the extension found is balanced and none between is; if none is found none exists |
| PatternCorrect.NextBalEnd | isnobol4.c:12088-12131 | shortest extensions taken one after the other visit the balanced ends in increasing order without omission |
| PatternCorrect.BalCorrect | isnobol4.c:12088-12131 | BAL offers exactly the balanced non-empty prefixes at the cursor |
| PatternCorrect.LeafCorrect | isnobol4.c:11817-11928 | a leaf node offers exactly its one end, or fails, with the length flag set only if no later cursor helps |
| PatternCorrect.ArbCorrect | isnobol4.c:11986-12011 | ARB offers every end from the cursor on, and in QUICKSCAN stops early only when nothing is lost |
| PatternCorrect.AltCorrect | isnobol4.c:11481-11505 | an alternation offers the ends of the left, then of the right |
| PatternCorrect.CatCorrect | isnobol4.c:11602-11609 | a concatenation offers, for each end of the left in order, the ends of the right |
| PatternCorrect.CaptureCorrect | isnobol4.c:12446-12516 | captures are put on the name list when their pattern ends and taken off when it is backed into |
| PatternCorrect.ArbnoCorrect | isnobol4.c:11945-11985 | ARBNO offers null, then each round's ends and what follows them; the system stack is balanced at every offer and at failure, and the cursor parked in a history entry is never followed |
| PatternCorrect.Correct | isnobol4.c:11448-11609 | every pattern, anywhere in a larger one, in QUICKSCAN, and in FULLSCAN where ARBNO bodies consume something: the walker offers exactly the ends of the algebra in order, and a reported length failure means no success from any later cursor |
| PatternCorrect.EndsBound | lib/pat.c:56-77 | a node's stored least length is a lower bound on what any success through it consumes |
| PatternTheorems.ScanAnswers | isnobol4.c:12716-12769 | an anchored scan, in FULLSCAN one that stops: it ends with the first end of the algebra and the captures of that path, or, when there is none, with failure and the name list as it was |
| PatternTheorems.QuickscanLosesNothing | isnobol4.c:11473-11476 | QUICKSCAN and FULLSCAN give the same answer whenever FULLSCAN stops |
| PatternTheorems.TooShortToMatch | isnobol4.c:12720-12724 | a subject shorter than the least length cannot match |
| FullAlgebra.FullBegins | isnobol4.c:11964-11975 | what FULLSCAN tries is a beginning of what the algebra lists, and all of it if it does not hang |
| FullScan.BaseTries | isnobol4.c:11817-12131 | patterns of one node never hang |
| FullScan.CatTries | isnobol4.c:11602-11609 | a concatenation tries the ends of the right behind each end of the left, up to the first that hangs |
| FullScan.ArbnoTries | isnobol4.c:11945-11985 | ARBNO tries null, then rounds; behind a round that matched null it tries the same rounds again without end |
| FullScan.NullRound | isnobol4.c:11964-11966 | no number of steps ends a loop whose last round matched null when everything offered is refused |
| FullScan.FullCorrect | isnobol4.c:11448-11609 | FULLSCAN on every pattern, anywhere in a larger one: each end listed is offered when those before it have been refused; after the last the walker fails, or goes on for ever, as is said |
| PatternTheorems.FullscanStops | isnobol4.c:12716-12769 | an anchored FULLSCAN stops if and only if something is tried or nothing hangs; its answer is then that of the algebra |
| PatternTheorems.RepeatableProductive | isnobol4.c:11964-11966 | a pattern of a certain shape has ARBNO bodies that always consume something |
| PatternTheorems.ProductiveTries | isnobol4.c:11964-11966 | where ARBNO bodies consume something FULLSCAN tries exactly what the algebra lists and never hangs |
| PatternTheorems.RepeatableStops | isnobol4.c:11964-11966 | so FULLSCAN stops on patterns of that shape |
| PatternLoop.NeverStops | isnobol4.c:11964-11966 | FULLSCAN of ARBNO(LEN(0)) 'a' on the null string, which has no match, never stops |
| PatternLoop.StopsAnyway | isnobol4.c:11964-11966 | FULLSCAN of 'b' ARBNO(LEN(0)) 'a' on "c" stops, although its ARBNO body matches null |
| PatternTheorems.RunFinal | isnobol4.c:11448-11609 | a scan that has stopped stays stopped, so its answer is unique |
| Scanner.Scanner.Execute | isnobol4.c:11507-11593 | one node executed is one step of the transition system |
| Scanner.Scanner.Enter | isnobol4.c:11457-11479 | so is a node entered, with the QUICKSCAN length test |
| Scanner.Scanner.Pop | isnobol4.c:11481-11506 | so is a history entry popped; the cursor is restored for alternates only |
| Scanner.Scanner.Scok | isnobol4.c:11602-11609 | a node left with success |
| Scanner.Scanner.Fail | isnobol4.c:11481-11490 | a node left with failure, the flag kept or cleared |
| Scanner.Scanner.Break | isnobol4.c:11702-11735 | the cached table gives the same result as one made anew |
| Scanner.Scanner.Span | isnobol4.c:11790-11815 | likewise |
| Scanner.Scanner.Positional | isnobol4.c:11817-11943 | LEN, POS, RPOS, TAB and RTAB, with their two ways of failing |
| Scanner.Scanner.Leaf | isnobol4.c:11748-11767 | leaves by their function and argument |
| Scanner.Scanner.Farb | isnobol4.c:11986-12011 | ARB's retry |
| Scanner.Scanner.Bal | isnobol4.c:12088-12131 | BAL's first try and retry |
| Scanner.Scanner.Arbno | isnobol4.c:11945-11985 | ARBNO's nodes |
| Scanner.Scanner.Record | isnobol4.c:12470-12506 | a capture is added to the name list, which grows when it is full without losing anything |
| Scanner.Scanner.Nme | isnobol4.c:12446-12458 | the start of a capture |
| Scanner.Scanner.Enme | isnobol4.c:12467-12497 | its end |
| Scanner.Scanner.Dnme | isnobol4.c:12508-12517 | a capture is taken back |
| Scanner.Scanner.Fnme | isnobol4.c:12459-12466 | and its start forgotten |
| Scanner.Scanner.Anchored | isnobol4.c:12757-12767 | the state that an anchored scan starts in |
| Scanner.Scanner.Scin | isnobol4.c:11448-11609 | the loop: it terminates, in the state that the transition system stops in |
| Scanner.Scanner.Scnr | isnobol4.c:12716-12769 | a whole anchored match: matched if and only if the algebra has an end, the cursor at the first end, the name list holding exactly its captures |
| Digraph.NoCycle | bsdtsort.c:405-449 | a search that returns 0 shows that its node is on no cycle, in spite of the pruning flags |
| Digraph.SomeCycle | bsdtsort.c:335-343 | where every node has an arc into it, some node is on a cycle |
| Digraph.PathLength | bsdtsort.c:348-360 | no path is longer than the cycle buffer |
| Peeling.CycleLeft | bsdtsort.c:381-385 | when a sweep removes nothing and nodes are left, one of them is on a cycle, so the internal error cannot occur |
| Peeling.ProgressNext | bsdtsort.c:336-342 | removing a node without arcs into it keeps what has been written in order |
| Peeling.ProgressBroken | bsdtsort.c:363-373 | so does removing the last node of a reported cycle, which is a simple cycle of what was left |
| Peeling.AcyclicSorted | bsdtsort.c:323-387 | an acyclic graph is written in topological order and no cycle is reported |
| Peeling.AllWritten | bsdtsort.c:323-402 | every node is written exactly once |
| Peeling.RunSorted | bsdtsort.c:323-402 | the same in names, for the words read |
| Peeling.SortedAcyclic | bsdtsort.c:139-218 | input without a cycle gives a topological order of its words |
| Peeling.WordsOrdered | bsdtsort.c:139-218 | of every two words of the input the first is written before the second, unless that one broke a reported cycle |
| Peeling.CyclesPaired | bsdtsort.c:139-218 | each word of a reported cycle and the next one are two such words of the input |
| Tsort.Sorter.FindCycle | bsdtsort.c:405-449 | the length returned is that of a genuine simple cycle in the log, or 0 and then the node is pruned rightly; flags and the log's prefix are restored; no index leaves the buffer |
| Tsort.Sorter.Follow | bsdtsort.c:419-446 | one arc of that search |
| Tsort.Sorter.Descend | bsdtsort.c:431-445 | one recursive call of it |
| Tsort.Sorter.RemoveNode | bsdtsort.c:389-402 | the node is written, its arcs are gone from the reference counts, and it is out of the list |
| Tsort.Sorter.Unlink | bsdtsort.c:399-401 | the doubly linked list without the node |
| Tsort.Sorter.Sweep | bsdtsort.c:336-342 | one sweep; if nothing was removed, every node left has arcs into it |
| Tsort.Sorter.SweepAll | bsdtsort.c:335-343 | sweeps until nothing is left to remove |
| Tsort.Sorter.ClearCycle | bsdtsort.c:312-321 | no node is flagged NODEST |
| Tsort.Sorter.Look | bsdtsort.c:361-378 | one search; if it finds nothing the node may be flagged acyclic |
| Tsort.Sorter.BreakCycle | bsdtsort.c:361-385 | finds a cycle among the nodes left, always, reports it and removes a node |
| Tsort.Sorter.Report | bsdtsort.c:363-373 | the cycle reported and its node removed |
| Tsort.Sorter.Allocate | bsdtsort.c:348-360 | two logs with room for every node left |
| Tsort.Sorter.Tsort | bsdtsort.c:323-387 | the whole sort: terminates with nothing left |
| Tsort.Sorter.GetNode | bsdtsort.c:270-309 | finds or makes exactly one node per name |
| Tsort.Sorter.AddArc | bsdtsort.c:233-268 | adds the arc once, and none from a name to itself |
| Tsort.Run | bsdtsort.c:139-218 | fails on an odd number of words; else writes every word once, arcs in order but for the nodes that break reported cycles, each report being a simple cycle of the input |
| Precedence.PrecedenceTree | isnobol4.c:13331-13376 | a tree is the one built if and only if its in-order reading is the input and the precedences on its spines allow it |
| Precedence.ParseOk | isnobol4.c:13331-13376 | the tree built reads as the input and respects the precedences |
| Precedence.Replay | isnobol4.c:13357-13371 | reading a tree that respects the precedences leads back to it, so it is the only one |
| Precedence.SonsBind | isnobol4.c:13342-13371 | an operator below another on its left has a left precedence above that one's right precedence; one on its right does not have a right precedence below that one's left one |
| Precedence.TwoOperators | isnobol4.c:13342-13371 | which of two operators gets the middle operand |
| Precedence.ReduceOk | isnobol4.c:13359-13371 | closing operators that bind tighter keeps the stack's invariant |
| ExprTree.Compiler.AddSibling | lib/tree.c:20-32 | the links after the insertion of a sibling |
| ExprTree.Compiler.AddFirst | lib/tree.c:34-45 | the links after the insertion of a first son |
| ExprTree.Compiler.InsertAbove | lib/tree.c:47-68 | the sibling walk always finds the node, and the new node stands above it |
| ExprTree.Compiler.Climb | isnobol4.c:13359-13369 | climbs exactly over the operators that bind tighter |
| ExprTree.Compiler.Start | isnobol4.c:13336-13340 | the first operator |
| ExprTree.Compiler.Shift | isnobol4.c:13351-13355 | an operator that binds tighter than the last goes below it |
| ExprTree.Compiler.Complete | isnobol4.c:13357-13375 | any other goes above what it closes |
| ExprTree.Compiler.Operator | isnobol4.c:13331-13376 | the links stand for the partial tree after one more operand and operator |
| ExprTree.Compiler.Next | isnobol4.c:13331-13376 | so after one more operand and operator of a whole expression, nodes that are none of its operands being left alone |
| ExprTree.Compiler.Finish | isnobol4.c:662-676 | the last operand, and the root found by climbing |
| ExprTree.Compiler.Last | isnobol4.c:662-676 | so at the end of an expression |
| ExprTree.Compiler.Expression | isnobol4.c:13298-13376 | the links stand for a tree that reads as the input and respects the precedences; what hangs below the operands, and every other node, is left alone |
| ExprTree.Completed | isnobol4.c:13357-13358 | hanging the operand as a sibling completes the innermost operator |
| ExprTree.Inserted | lib/tree.c:47-68 | inserting a node above another is pushing an operator on the partial tree |
| ExprTree.Shifted | isnobol4.c:13351-13355 | a sibling and its first son are an operator with its left operand |
| PrefixCode.RepLinked | isnobol4.c:3314-3369 | the tree that EXPR2 built is one that TREPUB can walk |
| PrefixCode.Publisher.Emit | isnobol4.c:3318-3325 | one word is appended, in a larger block if need be, with the old block sent on to the new one |
| PrefixCode.Publisher.TrePub | isnobol4.c:3314-3369 | appends exactly the prefix form of the tree, which CODSKP then skips exactly |
| PrefixCode.Onward | isnobol4.c:3326-3342 | the next node, by way of son, sibling or father, is the next in prefix order |
| PrefixCode.CodSkp | isnobol4.c:2617-2644 | the recursive skip, its errors included |
| PrefixCode.SkipsTrees | isnobol4.c:2617-2644 | started before the prefix code of n trees it ends exactly behind them |
| PrefixCode.SkipsWritten | isnobol4.c:2617-2644 | what was appended behind other code is skipped exactly |
| PrefixCode.RepCounted | lib/tree.c:20-68 | the counts that the tree surgery keeps in the nodes are those that skipping needs |
| PrefixCode.ExpressionSkipped | isnobol4.c:3314-3369 | an expression's tree, written as prefix code, is skipped exactly |
| PrefixCode.Published | lib/tree.c:20-68 | if the operands were trees with right counts, the tree that EXPR built with them is one that TREPUB can walk, with right counts |
| PrefixCode.Compile | isnobol4.c:13834-13847 | EXPR, then TREPUB: the text holds the operator tree with all that hung below its operands, in prefix order, and CODSKP skips it exactly |
| PrefixCode.OperatorFirst | isnobol4.c:3314-3342 | an operator is written before its left operand, and that before the right one |
| PrefixCode.BadCountMeans | isnobol4.c:2617-2644 | skipping complains of a count only if one was not positive |
| PrefixCode.SkipFurther | isnobol4.c:2617-2644 | what lies behind the code that is skipped makes no difference |
| Ordering.Lexcmp | lib/lexcmp.c:14-33 | compares as the lexicographic order does |
| Ordering.LexEqual | lib/lexcmp.c:14-33 | 0 means equal, and swapping the arguments swaps the sign |
| Ordering.LexTrans | lib/lexcmp.c:14-33 | the order is transitive |
| Ordering.LexMeaning | lib/lexcmp.c:14-33 | less means a beginning of the other string, or the smaller character where they first differ |
| Ordering.BeforeTotal | isnobol4.c:6639-6655 | keys with ties broken by storage address are totally ordered, ascending or descending |
| Ordering.BeforeTrans | isnobol4.c:6639-6655 | and transitively |
| Ordering.ExchangeScore | isnobol4.c:6652-6655 | exchanging a wrong pair at any distance lowers the number of inversions, weighed by distance |
| Sorting.Sorter.Wrong | isnobol4.c:6576-6655 | the comparison asks for an exchange exactly when the second key belongs before the first |
| Sorting.Sorter.Step | isnobol4.c:6569-6655 | one comparison and perhaps an exchange |
| Sorting.Sorter.Pass | isnobol4.c:6566-6660 | a pass that exchanged nothing leaves the pointers sorted at the gap |
| Sorting.Sorter.Passes | isnobol4.c:6566-6666 | passes at one gap terminate |
| Sorting.Sorter.Order | isnobol4.c:6556-6666 | the pointers are a permutation of what they were, in key order |
| Sorting.Stable | isnobol4.c:6639-6643 | equal keys keep their storage order although exchanges are at a distance |
| Sorting.IntegersRise | isnobol4.c:6615-6655 | integers rise with SORT and fall with RSORT, equal ones in storage order |
| Sorting.StringsRise | isnobol4.c:6585-6655 | so do strings, by their characters |
| Sorting.RowsCells | isnobol4.c:6705-6734 | every cell of the result |
| Sorting.ResultRises | isnobol4.c:6534-6734 | the key column of the result is in order |
| Sorting.SortedOnce | isnobol4.c:6556-6666 | there is only one such order |
| Sorting.OneSorted | isnobol4.c:6558-6560 | sorted at gap 1 is sorted |
| Sorting.Sorter.Fill | isnobol4.c:6550-6555 | the pointers are those of the keys, in storage order |
| Sorting.Sorter.CopyRow | isnobol4.c:6717-6730 | a whole row is copied, column by column, and nothing else changes |
| Sorting.Sorter.CopyRows | isnobol4.c:6705-6734 | copying does not overwrite pointers still to be read, although they are kept in the last column |
| Sorting.Sorter.Sort | isnobol4.c:6534-6734 | the result holds the whole rows of the array permuted into key order |
| Tables.Locapv | lib/pair.c:50-71 | the first pair of the extent with the key, or none |
| Tables.Assoce | isnobol4.c:3147-3164 | an extent with no key in use |
| Tables.Table.constructor | isnobol4.c:9190-9230 | a new table maps nothing |
| Tables.Table.Find | isnobol4.c:9039-9049 | the pair with the key in any extent of the chain, or none |
| Tables.Table.Refer | isnobol4.c:9030-9075 | finds the key's only pair or makes one, in the last extent or a new one, and disturbs no other; a frozen table gets no new key |
| Tables.Table.Assign | isnobol4.c:8610-8613 | an assignment to an element: the table is the same map but for that key |
| Tables.Stored | isnobol4.c:9059-9061 | a pair written makes the table the updated map |
| Conversion.Count | isnobol4.c:4173-4199 | the number of pairs whose value is not null |
| Conversion.Cnvta | isnobol4.c:5703-5744 | fails when there are none; else the head and both columns of the array, in the order of the chain |
| Conversion.ColumnsMap | isnobol4.c:5703-5744 | the first column holds the keys whose value is not null, the second their values beside them |
| Conversion.Cnvat | isnobol4.c:3092-3134 | fails unless the array has two dimensions and two columns; else one extent with its rows in order |
| Conversion.HeldDistinct | isnobol4.c:9030-9075 | no key is twice among a table's pairs |
| Conversion.BackAgain | isnobol4.c:5703-5744 | a table made into an array and that into a table maps the same keys to the same values but for null ones, in the same order |
| Arrays.OffsetInverse | isnobol4.c:8994-9018 | subscripts in range are found again from the offset, which is inside the array |
| Arrays.SubscriptsInverse | isnobol4.c:8994-9018 | every offset inside the array has subscripts in range |
| Arrays.FirstElement | isnobol4.c:8994-9018 | the lowest subscripts mean the first element |
| Arrays.NextElement | isnobol4.c:8994-9018 | raising a subscript by one goes as many elements further as the dimensions before it have; the first varies fastest |
| Arrays.Array | isnobol4.c:9317-9351 | the prototype, the bounds, last dimension first, and one initialised element for every subscript tuple |
| Arrays.DimsFound | isnobol4.c:9330-9340 | the dimensions are read back from the block as they were given |
| Arrays.Item | isnobol4.c:8957-9028 | missing subscripts are 0; too many are an error; out of range fails; else the name of the one element |
| Arrays.Walk | isnobol4.c:8994-9025 | the loop over the dimensions |
| Arrays.Addressing | isnobol4.c:9289-9346 | every element cell belongs to exactly one subscript tuple |

How the refinement is arranged: a method that the source runs in place is proved
equal to a function (`Scanner.Scanner.Enter` to `PatternMachine.Step`,
`ExprTree.Compiler.Operator` to `Precedence.Push`, `PrefixCode.CodSkp` to
`PrefixCode.Skip`) or to a predicate on memory before and after
(`Survival.Regenerated`, `Peeling.Progress`), and the theorems are about those.
Ghost parameters name the abstract value (the pattern, the chains, the way down
a tree) that the registers stand for.

## Left out

- Unanchored scans, BREAKX and the retry of SUCCEED (`isnobol4.c:11611-11637`, `11769-11788`, `12617-12633`): they use the cursor as if the walker had restored it, and `isnobol4.c:11502-11505` does not do so for function traps.
- Unevaluated expressions and FENCE(P) inside patterns, immediate assignment and cursor assignment.
- Patterns' arguments that are strings to be converted to integers, or expressions.
- Overflow of the history list, of the system stack and of machine integers.
- PatternBuild.NewBlock: pattern blocks are arrays of their own; that building one may collect garbage is covered by the storage model, where they are blocks like any other.
- PatternAlgebra.Ends: its contract gives the bound only; what it lists is its definition, against which the walker is proved, and `PatternMeaning` says what that comes to.
- Scanner.Scanner.Scnr: when a QUICKSCAN match is refused by the length test before it begins, the name list is not reset (`isnobol4.c:12723-12729`), and the contract says so.
- Scanner.Scanner.Break: bytes are assumed, as the tables have 256 entries.
- `CONVAR` and `GNVARS`, which lay out characters ahead of `LOCA1`: only the branch of `LOCA1` for them is modelled (`convsw`), with room already made.
- Collector.Storage.Loca1: with `convsw` set it requires that there is room, as CONVAR has made it.
- Collector.Storage.Lexeq: strings are characters packed into descriptors; byte order within a descriptor is not modelled.
- The mixing of `lib/hash.c`: a hash is any function from strings to a bin and an order number.
- Timing, tracing and statistics of the collector.
- The marking of the system stack's current extent (`isnobol4.c:757-759`): the stack is one of the permanent blocks with its size already set.
- Tsort.Sorter.Allot: nodes are numbers into sequences of fields, the hash table is a map, and the capacity of arc arrays is not modelled.
- Tsort.Run: reading characters and splitting them into words; the words are the input. The options other than the default are left out.
- PLUSOPS rewriting of `?` followed by `=` (`isnobol4.c:13307-13330`), and the element and operator scanners that feed EXPR2.
- PrefixCode.Publisher.Emit: that the rest of the old code block is split off (splitting is proved for storage), that a label's attribute is set to the new block, and the new block's address in the jump.
- Sorting.Sorter.Sort: keys are all strings or all integers. Real keys, mixed keys and fields of programmer-defined types are left out: rounding spoils transitivity.
- The form of SORT that takes a table (`isnobol4.c:6500-6532`), and its treatment of arguments.
- Parsing of an array's prototype string: the dimensions are the input of `Arrays.Array`.
- Conversion.Cnvat: the array's cells from the third on are the dimensions that ARRAY made, as `isnobol4.c:3096-3103` takes for granted.
- Tables.Table.Assign: input and output association and tracing of the element.
- Extents of tables are values in a sequence, linked by their index; in storage they are blocks like any other.
- The graphics code of BLOCKS, input and output, LOAD, error traps, signals and the monitor pipe.
