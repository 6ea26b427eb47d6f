# A verified model of eckit's core containers, record format and protocols

This project models the parts of eckit whose correctness rests on more than one function, and proves what they are for.
`dafny verify dfyconfig.toml` checks the whole project.

* **B+tree on pages** (`Pages`, `PageStore`, `TreeShape`, `TreeFacts`, `BTree`). Fixed-size pages live in a file and pass through a
  write-back cache with dirty bits. `BTree` is the class of the source: `insert` records the way down, shifts entries, splits
  upwards in a loop and keeps the root on page 1; leaves are doubly linked for range queries. `TreeShape` says page by page what
  makes pages a B+tree and shows that each kind of split keeps it. Main results: over every run a tree, with any cache settings and
  reopened any number of times, answers like a finite map (`BTrees.Replay`); its height is logarithmic, its leaf chain is the
  sorted list of all leaves, and `range` is described exactly, including when it misses keys.
* **Bounded queue** (`Queue`). Each locked section is an atomic step of a transition system in which any number of threads
  interleave, wait and wake up, also spuriously. Main results: every answer is determined by what was shown before it
  (`BoundedQueue.TraceDecides`), no lost wake-up, no mixed waiting, first in first out, and the end of the stream is final.
* **Codec records** (`Bytes`, `RecordFormat`, `RecordWriter`, `RecordReader`). Byte-level layout with the sizes and markers of the source,
  the writer that writes forwards and then patches head and index, and the reader that rebases and validates. Main result: whatever
  was set and wherever the record is written, reading there finds it, stored and checked as requested (`RecordReaders.WriteThenRead`); and
  the reader accepts exactly what is well formed (`RecordReaders.AcceptsExactly`).
* **Cache creation protocol** (`CacheProtocol`). Any number of processes run `getOrCreate` against one file system, with system calls that
  fail and entries that are evicted at any time. Main results: loads see only complete files of their key; with a lock, creation happens once
  and a process fails only if it must; nobody is stuck; a call that nobody interferes with does all that `getOrCreate` promises and nothing else.
* **Containers** (`Trie`, `CacheLRU`, `DenseMap`, `DenseSet`). The in-place representations, each tied to a map, a recency list or a set.
* **Paths** (`Tokenizer`, `Path`, `RelativePath`). Lexical resolution of `.` and `..` from any starting directory is the meaning of a path;
  tidying keeps it, decides it and is idempotent, and `relativePath` leads back by the shortest way.

Where the code does not do what one would expect of it, the code is modelled as it is, a lemma gives an input, and the exact condition is proved:

* `range(k1, k2)` returns nothing when the leaf that `k1` leads to has no key from `k1` on, even if the next leaf has some
  (`TreeFacts.RangeCanMiss`, `BTrees.BTree.Range`).
* Setting a record key again with an encoder that carries data where the first did not, or the other way round, upsets the section
  numbers (`RecordWriters.SetItemConsistent`). The record then cannot be read (`RecordWriters.DataAddedLater`,
  `RecordReaders.ReadableExactly`), or the writer leaves its index (`RecordWriters.DataDroppedLater`, `RecordWriters.RecordWriter.Write`), or
  a key leads to the data of another (`RecordWriters.DataMisplaced`, `RecordReaders.KeyBack`).
* `tidy` turns `a/../` into `/` (`Paths.TidyCanJumpToRoot`, `Paths.TidyKeepsMeaning`).
* `relativePath` goes wrong when the other path still has `.` or `..` past the shared part (`RelativePaths.WayCanMiss`,
  `RelativePaths.RelativeLeads`).
* `savePage` on a tree opened read only accepts a page that is in the cache, and `flush` then fails
  (`PageStores.SaveReadOnly`, `PageStores.PageStore.Flush`). `set` on such a tree works until a leaf fills up (`BTrees.BTree.Set`).

Deliberate modelling choices: integers are unbounded except where the record format stores them in words of fixed size; keys of trees and dense
containers are real numbers, standing for any total order; a failed `ASSERT` or a thrown exception is a result (`ok`, `Option`, `Result`);
the time stamp of a record, the text format of its metadata, checksums and compression are parameters of which only that they can be undone or
verified is used.

## Model

| member | source | states |
|---|---|---|
| `PageStores.PageRangesTileFile` | src/eckit/container/BTree.cc:517-520 | different pages occupy disjoint byte ranges, and the ranges tile the file from the offset on |
| `PageStores.EndOfFilePage` | src/eckit/container/BTree.cc:597-615 | the page number computed from the end of a file of n pages is n + 1, by exact division |
| `PageStores.PageStore.constructor` | src/eckit/container/BTree.cc:64-92 | a new store holds no page and its file ends at the offset |
| `PageStores.PageStore.Reopen` | src/eckit/container/BTree.cc:64-92 | a store opened on the file of another holds exactly the pages that the file holds, with an empty cache |
| `PageStores.PageStore.LoadFromFile` | src/eckit/container/BTree.cc:524-534 | reads the page whose range starts at the computed offset |
| `PageStores.PageStore.LoadPage` | src/eckit/container/BTree.cc:537-555 | returns the last saved version of a page, whether cached or not, and keeps file and cache coherent |
| `PageStores.PageStore.SaveToFile` | src/eckit/container/BTree.cc:558-569 | writes exactly the range of the page; refuses when read only, with nothing changed |
| `PageStores.PageStore.SavePage` | src/eckit/container/BTree.cc:572-594 | replaces the logical page and no other; succeeds exactly when the tree is writable, the page is cached or writes are cached |
| `PageStores.PageStore.NewPage` | src/eckit/container/BTree.cc:597-626 | appends a blank page with the next number at the old end of the file; fails exactly when read only |
| `PageStores.PageStore.Flush` | src/eckit/container/BTree.cc:117-126 | afterwards the file alone holds the logical pages and none is dirty; fails exactly when a read-only tree has a dirty page |
| `PageStores.PageStore.Clean` | src/eckit/container/BTree.cc:121-124 | writing one cached page clears its dirty bit and changes no logical page |
| `PageStores.SaveReadOnly` | src/eckit/container/BTree.cc:572-594 | on a file reopened read only, with either cache on, saving a page succeeds and flushing it fails |
| `PageStores.WriteBack` | src/eckit/container/BTree.cc:121-124 | writing a cached page to its range keeps file, cache and logical pages coherent |
| `PageStores.Appended` | src/eckit/container/BTree.cc:597-626 | a page appended behind the last one, cached clean or not at all, keeps the store coherent |
| `PageStores.ReplayStore` | src/eckit/container/BTree.cc:117-126 | every run of new, load, save and flush, under every cache setting, loads what a plain sequence of pages loads |
| `Pages.CopyEntries` | src/eckit/container/BTree.cc:247-267 | the copying loop yields exactly the slice of entries asked for |
| `Common.LowerBound` | src/eckit/container/BTree.cc:179-183 | the first position whose key is not below the one looked for |
| `TreeShape.SlotsDistinct` | src/eckit/container/BTree.cc:166-188 | in a well-formed tree no two slots of a node hold the same child |
| `TreeShape.PutLeafKeeps` | src/eckit/container/BTree.cc:211-227 | writing a leaf that stays sorted and in range keeps the tree well formed, with at most that leaf full |
| `TreeShape.PutLeafStores` | src/eckit/container/BTree.cc:211-227 | a leaf that differs in one key changes the stored map at that key and nowhere else |
| `TreeShape.SplitLeafKeeps` | src/eckit/container/BTree.cc:236-322 | splitting a full leaf keeps order, ranges, levels, links in both directions and occupancy; only the parent may now be full |
| `TreeShape.SplitLeafStores` | src/eckit/container/BTree.cc:236-322 | splitting a leaf loses and duplicates no entry |
| `TreeShape.SplitLeafLinks` | src/eckit/container/BTree.cc:278-288 | the sibling links around a split leaf meet in both directions |
| `TreeShape.SplitNodeKeeps` | src/eckit/container/BTree.cc:236-322 | splitting a full node, with the middle key going up, keeps the tree well formed; only the parent may now be full |
| `TreeShape.SplitNodeStores` | src/eckit/container/BTree.cc:236-322 | splitting a node leaves the stored map unchanged |
| `TreeShape.SplitRootLeafKeeps` | src/eckit/container/BTree.cc:329-406 | a root leaf split into two new leaves leaves a settled tree with page 1 as a node on top |
| `TreeShape.SplitRootLeafStores` | src/eckit/container/BTree.cc:329-406 | splitting a root leaf leaves the stored map unchanged |
| `TreeShape.SplitRootNodeKeeps` | src/eckit/container/BTree.cc:329-406 | a root node split into two new nodes leaves a settled tree, one level higher, still rooted at page 1 |
| `TreeShape.SplitRootNodeStores` | src/eckit/container/BTree.cc:329-406 | splitting a root node leaves the stored map unchanged |
| `TreeFacts.PageHoldsAtLeast` | src/eckit/container/BTree.cc:236-406 | the keys below a non-root page are at least as many as its level and the occupancy bounds imply |
| `TreeFacts.HeightIsLogarithmic` | src/eckit/container/BTree.cc:192-406 | a tree of height h > 0 stores at least 2 * (maxLeaf / 2) * (maxNode - maxNode / 2)^(h - 1) entries |
| `TreeFacts.ChainIsLeavesFrom` | src/eckit/container/BTree.cc:465-513 | following right links from a leaf meets every leaf from there on exactly once, in key order, and left links lead back |
| `TreeFacts.ChainIsAllLeaves` | src/eckit/container/BTree.cc:278-288 | from the leftmost leaf the chain is the list of all leaves in key order, closed at both ends |
| `TreeFacts.ChainCountsAll` | src/eckit/container/BTree.cc:629-653 | the entries along the leaf chain are as many as the map has |
| `TreeFacts.ReachesStored` | src/eckit/container/BTree.cc:465-513 | a range that starts at a stored key is served |
| `TreeFacts.ReachesFromBelow` | src/eckit/container/BTree.cc:465-513 | a range that starts at or before the smallest key is served |
| `TreeFacts.RangeCanMiss` | src/eckit/container/BTree.cc:478-481 | a well-formed tree with keys 1, 2, 10, 11 in which a range from 5 is not served |
| `BTrees.BTree.Open` | src/eckit/container/BTree.cc:64-92 | a new tree is well formed and stores the empty map; opening fails exactly when read only |
| `BTrees.BTree.Reopen` | src/eckit/container/BTree.cc:64-92 | a tree opened on a file that holds a tree stores the map of that tree |
| `BTrees.BTree.Next` | src/eckit/container/BTree.cc:166-188 | picks the one slot whose separators enclose the key |
| `BTrees.BTree.Search` | src/eckit/container/BTree.cc:427-448 | from the page responsible for a key, finds exactly what the map holds for it |
| `BTrees.BTree.Get` | src/eckit/container/BTree.cc:410-423 | the value stored for the key, or none |
| `BTrees.BTree.Set` | src/eckit/container/BTree.cc:157-162 | stores the value, leaves all other keys alone, keeps the tree well formed and tells whether the key was there; on a read-only tree succeeds exactly if the leaf can be saved in the cache and does not fill up, and otherwise leaves the tree as it was or the leaf at capacity |
| `BTrees.BTree.Insert` | src/eckit/container/BTree.cc:192-201 | the descent reaches the responsible leaf with the way down recorded |
| `BTrees.BTree.InsertIntoLeaf` | src/eckit/container/BTree.cc:203-227 | replaces the entry of a key, or adds one and settles the tree, with the same conditions |
| `BTrees.BTree.AddEntry` | src/eckit/container/BTree.cc:220-324 | adds an entry in order and splits what is full; on a read-only tree a leaf that fills up stays at capacity |
| `BTrees.BTree.Put` | src/eckit/container/BTree.cc:215-227 | saving the changed leaf changes the stored map at the key only |
| `BTrees.BTree.SplitUpwards` | src/eckit/container/BTree.cc:229-324 | the split loop ends with every page below capacity and the map unchanged; on a read-only tree it fails exactly when there is something to split, with no page changed |
| `BTrees.BTree.SplitLeafBelow` | src/eckit/container/BTree.cc:236-322 | one turn of the loop for a leaf: the full page moves one level up |
| `BTrees.BTree.SplitNodeBelow` | src/eckit/container/BTree.cc:236-322 | one turn of the loop for a node: the full page moves one level up |
| `BTrees.BTree.MoveUpperLeaf` | src/eckit/container/BTree.cc:262-292 | the page writes of a leaf split, with the right neighbour relinked |
| `BTrees.BTree.MoveUpperNode` | src/eckit/container/BTree.cc:244-292 | the page writes of a node split |
| `BTrees.BTree.AddToParent` | src/eckit/container/BTree.cc:294-321 | the separator goes into a parent that is below capacity, at its place in key order |
| `BTrees.BTree.SplitRoot` | src/eckit/container/BTree.cc:329-406 | splitting the root settles the tree and leaves the map unchanged |
| `BTrees.BTree.MoveRootHalves` | src/eckit/container/BTree.cc:329-406 | the page writes of a root split: two new pages, and page 1 as their parent |
| `BTrees.BTree.Count` | src/eckit/container/BTree.cc:629-653 | the recursive count is the size of the map |
| `BTrees.BTree.CountBelow` | src/eckit/container/BTree.cc:633-653 | the count of a page is the number of stored keys in its range |
| `BTrees.BTree.Range` | src/eckit/container/BTree.cc:452-456 | in order and without repetition all entries in the range exactly if the leaf reached from the first key has a key from there on or the range is empty; otherwise nothing |
| `BTrees.BTree.SearchRange` | src/eckit/container/BTree.cc:465-481 | the descent for a range and the early return |
| `BTrees.BTree.WalkRight` | src/eckit/container/BTree.cc:495-512 | walking the chain collects the slice of the map up to the second key and then stops |
| `BTrees.Replay` | src/eckit/container/BTree.cc:157-448 | every run of set, get, count and reopening, with any cache settings, is answered like a finite map answers it |
| `BoundedQueue.Queue.PopManySection` | src/eckit/container/Queue.h:111-127 | one locked section of `pop` into a vector: the loop takes the front of the queue in order, as many as there is room for |
| `BoundedQueue.Drive` | src/eckit/container/Queue.h:56-152 | whatever is done to a queue object, by any threads in any order, shows exactly the trace of the transition system; every entry is what the entries before it demand, and what is left is what was pushed and not popped |
| `BoundedQueue.TraceDecides` | src/eckit/container/Queue.h:56-152 | for every event of every run, from the events and answers before it alone: which thread may run, that it throws exactly if the last interrupt left a fault, that a push goes through exactly below the bound of the last resize and before any close and returns the new size, that a pop takes the first elements as many as fit and returns what it must, that it ends exactly if all is delivered and closed, and who waits |
| `BoundedQueue.TraceTells` | src/eckit/container/Queue.h:154-163 | after every run elements, bound, end, fault and the state of every thread are what the trace says |
| `BoundedQueue.StepKeepsInv` | src/eckit/container/Queue.h:56-152 | every event keeps: whoever waits would wait again, and the bound holds |
| `BoundedQueue.NoLostWakeUp` | src/eckit/container/Queue.h:56-152 | in every reachable state a waiting popper sees an empty, open, uninterrupted queue, a waiting pusher a full one, a waiting resizer one that is too long; the bound holds across resizing |
| `BoundedQueue.NoDeadlock` | src/eckit/container/Queue.h:56-152 | consumers never wait together with producers or resizers, and what they wait for can be done |
| `BoundedQueue.RunIsFifo` | src/eckit/container/Queue.h:96-152 | from any state, what was queued and then pushed is what was popped and is still queued, in order |
| `BoundedQueue.FirstInFirstOut` | src/eckit/container/Queue.h:96-152 | over any run the elements pushed are the elements popped followed by the queue, in order |
| `BoundedQueue.DrainedForever` | src/eckit/container/Queue.h:96-127 | a closed empty queue stays so: no push succeeds, every pop ends or throws |
| `BoundedQueue.EndIsFinal` | src/eckit/container/Queue.h:96-127 | once a pop returned -1 everything pushed has been delivered, nothing is pushed any more, and every later pop returns -1 or throws |
| `ByteStreams.LittleRoundTrip` | src/eckit/codec/detail/RecordSections.h:51-73 | words of any size decode to what was encoded |
| `ByteStreams.OverwritePatch` | src/eckit/codec/RecordWriter.cc:116-123 | going back into what was written changes only the bytes written again |
| `ByteStreams.Stream.Write` | src/eckit/codec/Stream.cc:43-46 | writes over the bytes at the position and moves it |
| `RecordFormat.Marker` | src/eckit/codec/detail/RecordSections.h:38-47 | markers are 32 bytes and are recognised by their tag |
| `RecordFormat.HeadRoundTrip` | src/eckit/codec/detail/RecordSections.h:51-73 | a head of 256 bytes decodes to the fields it was made of |
| `RecordFormat.EntryRoundTrip` | src/eckit/codec/detail/RecordSections.h:132-138 | an index entry of 80 bytes decodes to the fields it was made of |
| `RecordFormat.IndexRoundTrip` | src/eckit/codec/detail/RecordSections.h:106-139 | an index decodes to its entries |
| `RecordFormat.SectionsAt` | src/eckit/codec/RecordWriter.cc:82-106 | each data section lies right behind the sections before it |
| `RecordWriters.RecordWriter.Set` | src/eckit/codec/RecordWriter.cc:152-170 | the encoder of a repeated key is replaced while its section and compression stay, and the section counter follows the data |
| `RecordWriters.SetItemConsistent` | src/eckit/codec/RecordWriter.cc:152-170 | a call of `set` keeps section numbers right exactly if a key that is set again carries data as before |
| `RecordWriters.BuildConsistent` | src/eckit/codec/RecordWriter.cc:152-170 | distinct keys, or repeated ones that stay of one kind, give every key the number of its own data section |
| `RecordWriters.Counts` | src/eckit/codec/RecordWriter.cc:152-170 | after any calls of `set` the section counter is the number of calls that carried data, and the data keys are as many as the calls for keys that carried data at first |
| `RecordWriters.DataAddedLater` | src/eckit/codec/RecordWriter.cc:152-170 | a key set without data and then with data: one index entry, no section |
| `RecordWriters.DataDroppedLater` | src/eckit/codec/RecordWriter.cc:152-170 | a key set with data and then without: one index entry, two sections |
| `RecordWriters.DataMisplaced` | src/eckit/codec/RecordWriter.cc:152-170 | five calls after which the counts agree and a key leads to the data of another |
| `RecordWriters.RecordWriter.EstimateMaximumSize` | src/eckit/codec/RecordWriter.cc:186-221 | equals the length of the record if nothing is compressed and encoders report the size of their data; never less if no compressed data exceeds a fifth more than reported or, if that is more, 10 KB, and equal where each takes just that |
| `RecordWriters.RecordBytesLength` | src/eckit/codec/RecordWriter.cc:44-125 | head, metadata, index, sections and end marker add up to the length of the record, without gap |
| `RecordWriters.RecordWriter.WriteSections` | src/eckit/codec/RecordWriter.cc:82-106 | writes the sections in order and returns the index that locates them, the rest left blank; stops exactly when there are more sections than index entries |
| `RecordWriters.RecordWriter.Patch` | src/eckit/codec/RecordWriter.cc:116-124 | seeking back rewrites head and index entries only and leaves the stream behind the record |
| `RecordWriters.RecordWriter.Write` | src/eckit/codec/RecordWriter.cc:44-125 | the stream holds the record at the old position, everything else is as before, and the result is its length; fails exactly when there are more data sections than index entries, where the source writes past its index |
| `RecordReaders.Read` | src/eckit/codec/Record.cc:141-262 | reads what the byte-level definition of a readable record says, with its errors in order |
| `RecordReaders.Rebase` | src/eckit/codec/Record.cc:240-245 | index offsets become positions in the stream |
| `RecordReaders.ParseItems` | src/eckit/codec/Record.cc:266-287 | each item gets the byte order of the record and the index entry its section number points to; a mixed byte order or a number past the index is an error |
| `RecordReaders.ReadData` | src/eckit/codec/RecordItemReader.cc:48-77 | the bytes between the markers of the section an item points to, or the error |
| `RecordReaders.Located` | src/eckit/codec/Record.cc:141-262 | in a written record every part is found where the head says it is |
| `RecordReaders.ReadsBack` | src/eckit/codec/Record.cc:141-287 | reading a written record gives the head and items that were written if every index entry has its section, and otherwise fails with a bad section length |
| `RecordReaders.SectionBack` | src/eckit/codec/RecordItemReader.cc:48-77 | section i of a written record reads back as the i-th payload |
| `RecordReaders.KeyBack` | src/eckit/codec/RecordItemReader.cc:48-77 | in any written record a section number leads to the data of the key that was written in that place |
| `RecordReaders.RecordRoundTrip` | src/eckit/codec/Record.cc:141-287 | at any offset a written record yields exactly the keys that were set, each with its metadata, section number, compression, checksum and sizes, and with its data, decompressed to what was encoded |
| `RecordReaders.TruncationDetected` | src/eckit/codec/Record.cc:249-259 | a record that lost any number of bytes at its end is refused when it is read to its end |
| `RecordReaders.AcceptsExactly` | src/eckit/codec/Record.cc:141-262 | reading succeeds exactly if head, markers, metadata and index are well formed, the checksum in the head verifies the text between the metadata markers, every item finds its index entry and, when read to the end, the end marker is where the head says |
| `RecordReaders.HeadReasons` | src/eckit/codec/Record.cc:152-178 | which head is refused with which error |
| `RecordReaders.TextReasons` | src/eckit/codec/Record.cc:201-259 | once the metadata text is read: a record is corrupted exactly if its checksum does not verify, and of bad format, unreadable text or bad end under exactly the conditions that follow |
| `RecordReaders.InterpretReasons` | src/eckit/codec/Record.cc:240-287 | which index and items are refused with which error |
| `RecordReaders.AlterationDetected` | src/eckit/codec/Record.cc:201-210 | a written record whose metadata text was replaced by another of the same length that its checksum does not verify is refused as corrupted |
| `RecordReaders.LastDecides` | src/eckit/codec/RecordWriter.cc:152-170 | the last `set` of a key decides what is written for it |
| `RecordReaders.FirstDecides` | src/eckit/codec/RecordWriter.cc:152-170 | the first `set` of a key decides how its data is compressed |
| `RecordReaders.CallsBack` | src/eckit/codec/Record.cc:141-287 | if section numbers are right, reading finds the keys that were set and no others, each as it was set last; between its markers stands its data, compressed as its first `set` asked, with the checksum if there is to be one; the head has time, length and the checksum of the metadata text |
| `RecordReaders.ReadableExactly` | src/eckit/codec/Record.cc:240-245 | after any calls of `set`, reading the written record succeeds exactly if as many calls carried data as were for keys that did at first |
| `RecordReaders.DataAddedLaterRefused` | src/eckit/codec/Record.cc:240-245 | a key set without data and then with data makes the record unreadable |
| `RecordReaders.WriteThenRead` | src/eckit/codec/RecordWriter.cc:44-170 | for any calls of `set`, written at any position over any bytes: writing succeeds exactly if there are no more sections than entries, reading then succeeds exactly if there are as many, and finds what was set if section numbers are right, in particular if no key changes its kind |
| `RecordReaders.ListRecords` | src/tools/eckit-codec-list.cc:186-202 | the listing loop over appended records finds each start once and ends at the end of the file |
| `RecordReaders.AppendRecord` | src/tools/eckit-codec-list.cc:186-202 | a record written at the end of a file of records makes a file of one more record |
| `CacheProtocol.GoKeepsInv` | src/eckit/container/CacheManager.h:215-356 | every step of a process keeps: files about to be renamed, under an entry name or loaded are complete and of their key |
| `CacheProtocol.FaultKeepsInv` | src/eckit/container/CacheManager.h:288-356 | so does every failed system call |
| `CacheProtocol.LoadsAreComplete` | src/eckit/container/CacheManager.h:288-356 | in any run, with or without locking, failures and eviction, every load sees a complete file of its key |
| `CacheProtocol.StepKeepsOnce` | src/eckit/container/CacheManager.h:288-356 | with the lock, every step keeps: a key is created at most once, by the process that holds its lock, and found by all others |
| `CacheProtocol.CreatedOnce` | src/eckit/container/CacheManager.h:288-356 | with the lock, no failures and no eviction, creation runs at most once per key, not at all for a key that was there, and all processes end with the same content |
| `CacheProtocol.EndsExactly` | src/eckit/container/CacheManager.h:288-356 | under the same assumptions a process fails only if no root had its key and a miss throws or no root is writable; one that finishes has what the first root with the key held, or else a complete file created under the first writable root |
| `CacheProtocol.StepKeepsManned` | src/eckit/container/CacheManager.h:309-342 | every step, failed call and eviction keeps: whoever holds a lock is at work behind it |
| `CacheProtocol.NobodyIsStuck` | src/eckit/container/CacheManager.h:288-356 | in any run every step brings its process nearer to its end, within a bound linear in the roots, unless it stands before a lock; then a step brings the holder nearer to its end |
| `CacheProtocol.GetsOrCreates` | src/eckit/container/CacheManager.h:288-356 | a call that nobody interferes with, from any state: it returns what the first root with the key holds and changes nothing, or fails exactly if a miss throws or no root is writable, or leaves a complete new file under the first writable root, no temporary file and no lock |
| `CacheProtocol.CreatedAnew` | src/eckit/container/CacheManager.h:288-342 | what was evicted from the only root that had it is created anew by the next call |
| `CacheProtocol.TriesNextRoot` | src/eckit/container/CacheManager.h:300-346 | a system call that fails behind the lock, other than the renaming, costs a root: the process gives the lock back, tries the next writable root and ends there |
| `CacheProtocol.FailsElsewhere` | src/eckit/container/CacheManager.h:270-296 | a system call that fails before the lock, or when renaming, ends the process without a lock and without a change to the files |
| `Tries.Grow` | src/eckit/container/Trie.cc:100-129 | the window of children grows on either side to cover a byte and keeps every child at its byte |
| `Tries.GetAfterPut` | src/eckit/container/Trie.cc:33-52 | inserting changes what is found for that key and for no other |
| `Tries.GetAfterDel` | src/eckit/container/Trie.cc:41-86 | removing makes that key absent and changes no other |
| `Tries.PutKeeps` | src/eckit/container/Trie.cc:88-139 | inserting keeps windows in byte range and every node useful |
| `Tries.DelKeeps` | src/eckit/container/Trie.cc:59-86 | removing keeps windows in byte range and every node useful, pruning included |
| `Tries.EmptyIffNoKey` | src/eckit/container/Trie.h:42-42 | a well-formed trie is empty exactly when no key is present |
| `Tries.Trie.Find` | src/eckit/container/Trie.cc:88-98 | follows the nodes to what the tree holds for a key |
| `Tries.Trie.Insert` | src/eckit/container/Trie.cc:33-39 | makes the missing nodes, none shared, and sets the value |
| `Tries.Trie.Widen` | src/eckit/container/Trie.cc:103-129 | reallocating the window keeps all children where they are |
| `Tries.Trie.Remove` | src/eckit/container/Trie.cc:59-86 | clears the value, deletes children that became useless and tells whether this node did |
| `Tries.Trie.DropEmptyWindow` | src/eckit/container/Trie.cc:75-81 | the window is dropped exactly when no child is left |
| `Tries.CStr` | src/eckit/container/Trie.cc:33-52 | the key that counts is the string before its first NUL, all of it |
| `Tries.Trie.InsertString` | src/eckit/container/Trie.cc:33-39 | afterwards the key up to its first NUL has the value and all other keys are as before |
| `Tries.Trie.RemoveString` | src/eckit/container/Trie.cc:41-45 | afterwards the key up to its first NUL is absent and all other keys are as before |
| `Tries.Trie.FindString` | src/eckit/container/Trie.cc:47-57 | the value of the key up to its first NUL, or none |
| `Tries.Trie.Empty` | src/eckit/container/Trie.h:42-42 | true exactly when no key is present |
| `Tries.Replay` | src/eckit/container/Trie.cc:33-139 | every run of insert, remove, find and empty is answered like a finite map answers it |
| `LruCaches.CacheLRU.Insert` | src/eckit/container/CacheLRU.cc:25-45 | the entry comes first, an old one of its key is overwritten and not purged, the rest keeps its order, and exactly the entries past the capacity are purged; list and map stay in step, and every entry ever inserted is live, purged, extracted or overwritten exactly once |
| `LruCaches.CacheLRU.Access` | src/eckit/container/CacheLRU.cc:47-67 | a hit moves the entry to the front, a miss changes nothing |
| `LruCaches.CacheLRU.Extract` | src/eckit/container/CacheLRU.cc:69-80 | takes the entry out, returns its value and purges nothing |
| `LruCaches.CacheLRU.Remove` | src/eckit/container/CacheLRU.cc:82-94 | takes the entry out and purges it and no other |
| `LruCaches.CacheLRU.Clear` | src/eckit/container/CacheLRU.cc:101-109 | purges every entry once |
| `LruCaches.CacheLRU.Erase` | src/eckit/container/CacheLRU.cc:111-115 | unlinks the node the map holds for the key and forgets the key |
| `LruCaches.CacheLRU.Trim` | src/eckit/container/CacheLRU.cc:117-125 | purges from the back, and exactly the entries past the capacity |
| `LruCaches.CacheLRU.SetCapacity` | src/eckit/container/CacheLRU.cc:138-142 | keeps the most recent entries that fit and purges the others |
| `LruCaches.IndexSize` | src/eckit/container/CacheLRU.cc:117-125 | the map has as many keys as the list has nodes |
| `LruCaches.MovedInStep` | src/eckit/container/CacheLRU.cc:127-130 | splicing a node to the front keeps list and map in step |
| `LruCaches.CachedIsRecent` | src/eckit/container/CacheLRU.cc:25-67 | a cache of fixed capacity is the front of the list an unbounded one would keep |
| `LruCaches.KeepsMostRecent` | src/eckit/container/CacheLRU.cc:25-67 | after inserts and hitting accesses keys are in order of last use, and every key held was used later than every key not held |
| `LruCaches.Replay` | src/eckit/container/CacheLRU.cc:25-67 | every run of inserts and accesses on the cache leaves, in order, what the list of uses says |
| `DenseMaps.StableSort` | src/eckit/container/DenseMap.h:80-90 | keys ascend and the items of each key keep their order |
| `DenseMaps.UniqueReverse` | src/eckit/container/DenseMap.h:80-90 | unique from the back leaves the last item of each key, in ascending order |
| `DenseMaps.DenseMap.Insert` | src/eckit/container/DenseMap.h:49-52 | the key maps to the new value and the flag is cleared |
| `DenseMaps.DenseMap.Sort` | src/eckit/container/DenseMap.h:80-90 | strictly ascending keys, and every key maps to what was written last |
| `DenseMaps.DenseMap.Find` | src/eckit/container/DenseMap.h:120-146 | finds the key exactly when it is mapped; fails exactly when unsorted |
| `DenseMaps.DenseMap.Replace` | src/eckit/container/DenseMap.h:57-65 | the key maps to the new value; stays sorted exactly when the key was there; fails exactly when unsorted |
| `DenseMaps.DenseMap.Size` | src/eckit/container/DenseMap.h:74-77 | the size of the map; fails exactly when unsorted |
| `DenseMaps.Replay` | src/eckit/container/DenseMap.h:49-146 | any run of insert, replace and sort ending in sort leaves each key once, in ascending order, with the value written last |
| `DenseSets.Sort` | src/eckit/container/DenseSet.h:75-82 | a sorted permutation |
| `DenseSets.Unique` | src/eckit/container/DenseSet.h:75-82 | strictly ascending up to the new end, with the same values |
| `DenseSets.DenseSet.Insert` | src/eckit/container/DenseSet.h:55-60 | appends, and the flag stays exactly when the value exceeds the last |
| `DenseSets.DenseSet.SortValues` | src/eckit/container/DenseSet.h:75-82 | strictly ascending, with the same values |
| `DenseSets.DenseSet.Find` | src/eckit/container/DenseSet.h:101-127 | finds the value exactly when it is there; fails exactly when unsorted and nonempty |
| `DenseSets.DenseSet.Equals` | src/eckit/container/DenseSet.h:145-147 | sorted sets compare equal exactly when they hold the same values |
| `DenseSets.DenseSet.Merge` | src/eckit/container/DenseSet.h:159-195 | the union, ascending if both were, also when a set is merged with itself; fails exactly when both are nonempty and one is unsorted |
| `DenseSets.AscendingIsCanonical` | src/eckit/container/DenseSet.h:145-147 | strictly ascending sequences are equal exactly when they hold the same values |
| `Tokenizers.Tokenize` | src/eckit/utils/Tokenizer.cc:20-46 | the tokens between separators, with or without the empty ones |
| `Tokenizers.SplitThenWeave` | src/eckit/utils/Tokenizer.cc:20-46 | for any separators: no token holds one, and the tokens with the separators of the string between them are the string |
| `Tokenizers.WeaveThenSplit` | src/eckit/utils/Tokenizer.cc:20-46 | for any separators: tokens without separators, put together with any separators between them, are taken apart again |
| `Tokenizers.SplitThenJoin` | src/eckit/utils/Tokenizer.cc:20-46 | joining the tokens of a string with slashes gives it back, and no token holds a slash |
| `Tokenizers.JoinThenSplit` | src/eckit/utils/Tokenizer.cc:20-46 | tokenizing joined tokens gives them back |
| `Paths.TidyTokens` | src/eckit/filesystem/LocalPathName.cc:514-562 | the loop computes the tidied tokens |
| `Paths.TidiedKeeps` | src/eckit/filesystem/LocalPathName.cc:514-562 | tidied tokens lead from every directory where the path led, are in normal form, and are absolute exactly if the path was |
| `Paths.DotKept` | src/eckit/filesystem/LocalPathName.cc:514-562 | a leading `.` stays unless a `..` takes its place, and no other is left |
| `Paths.NormalIsTidy` | src/eckit/filesystem/LocalPathName.cc:514-562 | a path in normal form is left alone |
| `Paths.TidyDecides` | src/eckit/filesystem/LocalPathName.cc:514-562 | two paths lead to the same place from every directory exactly when they tidy to the same tokens, up to a leading `.` |
| `Paths.CancelsOut` | src/eckit/filesystem/LocalPathName.cc:514-562 | a path tidies to nothing exactly when it leads nowhere from every directory and does not start with `.` |
| `Paths.RebuildPath` | src/eckit/filesystem/LocalPathName.cc:564-582 | the loop joins the tokens and puts the trailing slash back |
| `Paths.Tidy` | src/eckit/filesystem/LocalPathName.cc:584-604 | tokenizing, tidying and rebuilding together |
| `Paths.TidyKeepsMeaning` | src/eckit/filesystem/LocalPathName.cc:584-604 | a tidied path names the same directory from every directory exactly when the path does not cancel out before a trailing slash |
| `Paths.TidyCanJumpToRoot` | src/eckit/filesystem/LocalPathName.cc:564-582 | `a/../` becomes `/` |
| `Paths.TidyIdempotent` | src/eckit/filesystem/LocalPathName.cc:584-604 | tidying twice is tidying once, for every string |
| `Paths.TidyKeepsTrail` | src/eckit/filesystem/LocalPathName.cc:584-604 | a trailing slash is kept, and none is added except where an absolute path names the root |
| `RelativePaths.RelativePath` | src/eckit/filesystem/LocalPathName.cc:652-699 | fails exactly when a path is not absolute; otherwise spells out the way up to the shared part and down |
| `RelativePaths.RelativeLeads` | src/eckit/filesystem/LocalPathName.cc:652-699 | for any absolute paths, from the directory the other names the result names what this names under exactly that condition |
| `RelativePaths.ClimbsBackExactly` | src/eckit/filesystem/LocalPathName.cc:677-684 | going up as many levels as the other path has components past the shared part leads back to it exactly if they are all names or the shared part is the root |
| `RelativePaths.WayLeadsExactly` | src/eckit/filesystem/LocalPathName.cc:652-699 | for any paths, the way leads there exactly when the other path has only names past the shared part or this path climbs out of all that is shared |
| `RelativePaths.WayCanMiss` | src/eckit/filesystem/LocalPathName.cc:652-699 | from `/x/a/../b` the way to `/x/c` misses |
| `RelativePaths.RelativeRoundTrip` | src/eckit/filesystem/LocalPathName.cc:652-699 | for tidy absolute paths, the other path with the result appended tidies back to this path, but for a trailing slash |
| `RelativePaths.WayIsShortest` | src/eckit/filesystem/LocalPathName.cc:652-699 | no sequence of steps from one directory to another is shorter than the way |

## Left out

- BTree file locks, `sync`, `preload`, `lockRange` and printing: operating-system calls or output.
- BTrees.BTree.Set: asks for a tree in which every page is below capacity; a further `set` on a read-only tree after one that left a leaf at capacity is not modelled.
- BTrees.BTree.Open: a file that already has bytes but ends before the offset is not modelled; opening creates the root exactly at the offset.
- BTrees.BTree.Reopen: asks that what the file holds is a tree; nothing is said of a file that was cut short or whose pages were written only in part.
- Page bytes: pages are values, so padding, the exact capacity a page size allows and I/O errors of the file are not modelled.
- Queue time: fairness of the scheduler and of the mutex is not modelled, so nothing is said about how long a thread waits; `size`, `empty` and `closed` are plain queries.
- RecordReaders.Read: models a fresh record with flat items; nested items flattened into dotted keys, the state left behind by a failed read, the head of a record of the other byte order, an `index_length` that is not a multiple of 80 and I/O errors are not modelled.
- RecordReaders.ReadData: offsets are unbounded, so wrap-around of offset sums is not modelled.
- RecordWriters.RecordWriter.EstimateMaximumSize: the factor 1.2 is computed exactly, not in floating point.
- RecordReaders.WriteThenRead: the record must be shorter than 2^64 bytes; what follows once the writer has left its index is not modelled.
- Links between records, JSON and YAML text, checksum and compression algorithms: parameters of the model.
- CacheManager eviction accounting (`touch`, `rescanCache`) and file modes: approximate by design, or plain system calls.
- CacheProtocol.CreatedOnce: asks for a lock that excludes; lock files that vanish or expire are not modelled.
- Tries.Trie.FindString: returns the value, not its address in the node.
- LruCaches.CacheLRU.Clear: the purge function of the caller is recorded, not called.
- DenseMaps.DenseMap.Find: returns a position instead of an iterator; `at`, `get` and the index operators are plain accesses.
- Keys of trees, dense maps and dense sets are real numbers; finitely many keys of any total order can be renamed to such.
- Paths.Tidy: expansion of a leading `~` and of path schemes is not modelled.
- RelativePaths.RelativePath: as for `Paths.Tidy`, a result that starts with `~` is not expanded.
- `Recycler`, `BloomFilter`, `KDMapped`, `Message`, file-space strategies, commands, logging and the distributed layer: they would only add easy members.
