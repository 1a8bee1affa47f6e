# Verified models of cpp-examples

This project models seven pieces of the cpp-examples repository in Dafny and proves what they are for. Every claim below holds for all inputs, all runs or all interleavings.

| module | models |
|---|---|
| `JsonValue`, `JsonReader`, `JsonGrammar`, `JsonSoundness`, `JsonCompleteness`, `JsonPrinter`, `JsonReread`, `JsonRoundTrip`, `JsonLayout`, `JsonCursor` | the JSON parser and pretty-printer, `middleware/src/nonworking_json.cpp` |
| `Queue`, `QueueSafety`, `QueueDelivery`, `QueueHazards` | the semaphore-guarded circular queue, `cjunk/practice/circularqueue.cc` |
| `CodeTable`, `CodeCache`, `IntConversion` | the code-object cache, the traceback helper and the integer conversions, `cjunk/cython/simple.cpp` |
| `CompactJson`, `CompactReread` | the compact serializer, `cjunk/trivialJson/json.cpp` and `json.hpp` |
| `RingFifo` | the macro ring buffer, `cjunk/ringBuffer.h` |
| `Profit` | the one-pass maximum profit, `cjunk/practice/financialAnalysis.cc` |
| `Resampling` | normalise and resample, `cjunk/practice/geoParticleFilter.cc` |
| `Common` | an option type and two facts that several modules use |

`dafny verify dfyconfig.toml` checks everything.

## How the models are built

**JSON.** `JsonReader` says what each parser method computes, as a function from the unread text to a value and the rest; a thrown exception is `Fail`. `JsonCursor` has the parser class with its cursor, loops and mutual recursion, and the serializer with its loops; each method is proved to compute its function. `JsonGrammar` states the accepted language on its own, as concrete syntax trees with a text and a value, without using the parser. Soundness and completeness then show that the parser accepts exactly the texts of trees, with exactly their values, so that, for instance, extending a text changes only what may follow the tree. `JsonReread` says what the parser makes of printed text, for every value with plain keys; a count of backslashes shows that other keys never survive. `JsonLayout` is about the printed text itself: where it has newlines and spaces, and the order of keys. Text is a sequence of characters, of which bytes are the first 256. `std::stod` is a parameter, and so is `std::to_string` on doubles, which gives fixed-point digits or the name of a value that is not finite. An object is the ordered contents of a `std::map`.

**Circular queue.** A state machine whose steps are the atomic actions of the threads: semaphore acquire, fetch-and-add, slot access, release, load, compare-exchange. Semaphores follow [thread.sema.cnt] of ISO C++20; `try_acquire` may fail at any time. History fields of the state (claim numbers and claimants, slot owners, readings and results of pops) are only recorded, never consulted by a step. `QueueDelivery` follows the items from the arguments of push to the results of pop. Line 60 calls `post()`, which `std::counting_semaphore` does not have; line 45 is taken as the one release of `pop`, because a second one would free a slot that was never emptied.

**Cython runtime.** The cache is a class over a growable array. Memory allocation, object creation and frame creation are parameters that may fail. Reference counts are a map; `held` records the references outside the cache. Integer conversions are functions over digit sequences with shifts that drop high bits, bitwise or, and wrapping casts, for any digit layout with a spare bit and any word sizes.

## Results that differ from what the code seems to promise

- A document that is only a number is rejected unless it ends in an exponent sign or exponent digits, because `peek` throws at the end of the text; two of the driver's own test documents (lines 369 and 370) are such numbers (`BareNumber`).
- Object keys are printed without escaping, so a value survives printing and parsing only if no key contains a quotation mark or a backslash. Together with the next item and the bare numbers above this is the exact condition (`RoundTrip`, both directions).
- A double comes back only if its printed fraction is not zero and `stod` gives it again for the trimmed text. Otherwise it becomes an integer or another double, or the whole document is rejected, as for 1e20 or infinity (`DoubleInArray`).
- The circular queue mixes up slots with more than one producer or more than one consumer, unless its capacity is one (`TwoProducersHazard`, `TwoConsumersHazard`).
- One producer and one consumer are not enough either: the head is reduced only when no push comes between the load and the compare-exchange, so it can climb until it wraps. The example queue, with capacity 10 and 32-bit counters, has a run that reads a slot its item was not written to (`WrapHazard`, `ExampleQueueHazard`). `SafeExactlyWhen` gives the exact condition for all capacities, counter widths and sets of threads.
- Replacing a cache entry would leave the new object without a reference; the traceback helper never takes that branch (`StoreKeepsOwnership`, `Cache.AddTraceback`).
- A quotation mark inside a small string can make the compact output ambiguous, if a comma or a closing bracket follows it (`QuoteIsAmbiguous`, `SerializationIsInjective`); on its own, a small string is never ambiguous (`LoneStringIsUnambiguous`).
- The compact output is read back by the JSON parser exactly when it is not a bare number, has no null list and no string with a quotation mark or a backslash (`CompactRoundTrip`).
- A particle of weight zero can be selected, but only the first one and only by a draw of exactly zero (`ZeroWeightPicked`).

## Model

| member | source | states |
|---|---|---|
| JsonCursor.JsonParser.constructor | middleware/src/nonworking_json.cpp:293 | the cursor starts at the beginning of the text |
| JsonCursor.JsonParser.SkipWhitespace | middleware/src/nonworking_json.cpp:120-124 | the loop leaves exactly the text after the leading whitespace |
| JsonCursor.JsonParser.SkipDigitChars | middleware/src/nonworking_json.cpp:183-185 | the digit loops leave exactly the text after the leading digits |
| JsonCursor.JsonParser.Peek | middleware/src/nonworking_json.cpp:126-131 | the next character, or a throw exactly at the end of the text |
| JsonCursor.JsonParser.Consume | middleware/src/nonworking_json.cpp:133-138 | takes one character, or throws exactly at the end of the text |
| JsonCursor.JsonParser.ExpectChar | middleware/src/nonworking_json.cpp:140-147 | whitespace and then exactly the expected character are taken, otherwise a throw |
| JsonCursor.JsonParser.ParseString | middleware/src/nonworking_json.cpp:149-174 | outcome and rest are those of the string language function |
| JsonCursor.JsonParser.Escape | middleware/src/nonworking_json.cpp:156-167 | the eight escape letters and a throw for all others |
| JsonCursor.JsonParser.ScanExponent | middleware/src/nonworking_json.cpp:196-205 | whether an exponent part was taken, with the throws at the end of the text |
| JsonCursor.JsonParser.ScanNumeral | middleware/src/nonworking_json.cpp:178-205 | the cursor stops at the end of the longest numeral, and it is told whether it is a double |
| JsonCursor.JsonParser.ParseNumber | middleware/src/nonworking_json.cpp:176-213 | the scanned slice is converted by `stod` or, within 64 bits, by `stoll` |
| JsonCursor.JsonParser.ParseLiteral | middleware/src/nonworking_json.cpp:215-223 | accepted exactly when the literal is a prefix of the unread text |
| JsonCursor.JsonParser.ParseArray | middleware/src/nonworking_json.cpp:225-244 | outcome and rest of the item loop for every input, well formed or not |
| JsonCursor.JsonParser.ParseObject | middleware/src/nonworking_json.cpp:246-268 | outcome and rest of the member loop for every input, well formed or not |
| JsonCursor.JsonParser.ParseValue | middleware/src/nonworking_json.cpp:270-290 | dispatch on the first character; success strictly advances the cursor and it never leaves the text |
| JsonCursor.JsonParser.ParseDocument | middleware/src/nonworking_json.cpp:295-302 | one value and whitespace up to the end of the text, or a throw |
| JsonReader.ReadValue | middleware/src/nonworking_json.cpp:270-290 | every success leaves strictly less text, which is the termination measure of the mutual recursion |
| JsonReader.ReadItems | middleware/src/nonworking_json.cpp:230-240 | each turn of the array loop consumes text |
| JsonReader.ReadMembers | middleware/src/nonworking_json.cpp:251-264 | each turn of the object loop consumes text |
| JsonSoundness.SoundValue | middleware/src/nonworking_json.cpp:120-290 | every accepted text is the text of a well-formed syntax tree with that value, followed by the rest |
| JsonSoundness.SoundNumber | middleware/src/nonworking_json.cpp:176-213 | every accepted number is a numeral of the grammar whose value is the returned one, and what follows does not continue it |
| JsonCompleteness.CompleteValue | middleware/src/nonworking_json.cpp:120-290 | every syntax tree is accepted in front of any text that may follow it, with its value, ending exactly there |
| JsonCompleteness.CompleteNumber | middleware/src/nonworking_json.cpp:176-213 | a numeral is converted to its value or rejected if it has none |
| JsonCompleteness.ReadValueIffGrammar | middleware/src/nonworking_json.cpp:270-290 | value and rest are returned if and only if the grammar derives that value from the text in front of that rest |
| JsonCompleteness.ParseIffGrammar | middleware/src/nonworking_json.cpp:295-302 | a document is accepted with a value if and only if the grammar derives it, up to whitespace at the end |
| JsonCompleteness.AcceptedObject | middleware/src/nonworking_json.cpp:246-268 | an accepted object has exactly the keys that occur, in increasing lexicographic order, each with its last value |
| JsonGrammar.LastFieldWins | middleware/src/nonworking_json.cpp:246-268 | writing the fields in order into a map binds each key to its last value and keeps the keys in lexicographic order |
| JsonValue.PutKeepsSorted | middleware/src/nonworking_json.cpp:255 | assignment to a key keeps the map in strictly increasing lexicographic key order |
| JsonValue.PutThenLookup | middleware/src/nonworking_json.cpp:255 | assignment changes the value of that key and of no other |
| JsonValue.LessIsLexicographic | middleware/src/nonworking_json.cpp:255 | the order of keys: one key is before another if and only if it is a proper prefix or has the smaller character where they first differ |
| JsonValue.CharacterClasses | middleware/src/nonworking_json.cpp:121 | the six whitespace characters and the ten digits |
| JsonValue.Int64Limits | middleware/src/nonworking_json.cpp:211 | the decimal limits of the integers that `stoll` accepts |
| JsonCompleteness.ExtendingKeepsResult | middleware/src/nonworking_json.cpp:120-302 | more text keeps value and end position if and only if it does not continue the exponent of a double at the end |
| JsonCompleteness.SurroundingSpaceIsIgnored | middleware/src/nonworking_json.cpp:295-302 | whitespace before and after an accepted document does not change its value |
| JsonCursor.Serialize | middleware/src/nonworking_json.cpp:306-358 | the recursive printer computes the printing function at every level |
| JsonCursor.SerializeString | middleware/src/nonworking_json.cpp:328-336 | quotation marks and backslashes are escaped and nothing else |
| JsonCursor.SerializeArray | middleware/src/nonworking_json.cpp:337-345 | the loop with the first flag prints all items in order with separators and indentation |
| JsonCursor.SerializeObject | middleware/src/nonworking_json.cpp:346-355 | the loop with the first flag prints all members in order, keys unescaped |
| JsonLayout.PrintedLayout | middleware/src/nonworking_json.cpp:306-358 | in printed text with plain keys, outside strings, a newline stands exactly after an opening bracket, after a comma and before a closing bracket; each line starts with two spaces for every bracket still open, one level less if it closes one; one space follows a colon; there is no other whitespace; and brackets balance |
| JsonLayout.MembersInKeyOrder | middleware/src/nonworking_json.cpp:346-355 | of any two members of an object the one with the lexicographically smaller key is printed first |
| JsonPrinter.TrimDropsZeros | middleware/src/nonworking_json.cpp:320-327 | the text of a double loses only its trailing zeros, and the point exactly when nothing else follows it |
| JsonPrinter.TrimmedText | middleware/src/nonworking_json.cpp:318-327 | the trimmed text of a finite double is a numeral, with a fraction exactly when a printed digit after the point is not zero |
| JsonReread.ReadsPrinted | middleware/src/nonworking_json.cpp:120-358 | printed text of a value with plain keys is read, in front of any rest that does not continue it, as the value with each double replaced by what its text denotes, ending exactly at the rest; it is rejected if one of them denotes nothing |
| JsonReread.RereadSame | middleware/src/nonworking_json.cpp:207-212 | that value is the printed one if and only if every double has a non-zero printed fraction and is what `stod` gives for the trimmed text |
| JsonRoundTrip.PrintedTextIsReadBack | middleware/src/nonworking_json.cpp:149-358 | printed text in front of any rest is read back as the value, ending exactly at the rest, and derived by the grammar, when keys are plain and all doubles survive |
| JsonRoundTrip.PrintedDocument | middleware/src/nonworking_json.cpp:295-358 | what parsing printed text gives for any value with plain keys: nothing for a bare number, otherwise the value with each double replaced by what its text denotes |
| JsonRoundTrip.RoundTrip | middleware/src/nonworking_json.cpp:295-358 | any value, doubles included, is parsed back from its printed text at every level if and only if it is not a bare number, its keys need no escape, and each double has a non-zero printed fraction from which `stod` gives it again |
| JsonRoundTrip.PrintSlashes | middleware/src/nonworking_json.cpp:328-355 | printed text has the backslashes its strings need, less those that unescaped keys would need |
| JsonRoundTrip.NodeSlashes | middleware/src/nonworking_json.cpp:149-174 | any accepted text has at least the backslashes that the strings and keys of its value need |
| JsonRoundTrip.ReprintedDocument | middleware/src/nonworking_json.cpp:382-388 | parsing, printing and parsing again gives the first value, under the same exact condition; parsed values always have sorted keys and 64-bit integers |
| JsonRoundTrip.IntegerRoundTrip | middleware/src/nonworking_json.cpp:176-213 | every 64-bit integer, including the minimum, is read back exactly in front of a character that does not continue it |
| JsonRoundTrip.IntegerTextAccepted | middleware/src/nonworking_json.cpp:176-213 | integer text is read exactly if it fits in 64 bits and something follows, and rejected otherwise |
| JsonRoundTrip.BareNumber | middleware/src/nonworking_json.cpp:188-205 | a number as a whole document is accepted only with an exponent sign or exponent digits |
| JsonRoundTrip.BareIntegerIsRejected | middleware/src/nonworking_json.cpp:188 | a printed integer is not a document |
| JsonRoundTrip.BareDoubleIsRejected | middleware/src/nonworking_json.cpp:188-196 | a printed double is not a document, finite or not |
| JsonRoundTrip.DoubleInArray | middleware/src/nonworking_json.cpp:318-327 | a double in an array comes back as what `stod` gives if its printed fraction is not zero, as an integer if it is zero, and rejects the document if that integer exceeds 64 bits, `stod` throws or it is not finite |
| JsonRoundTrip.QuoteInKeyBreaksRoundTrip | middleware/src/nonworking_json.cpp:351 | an object with a quotation mark as key is not read back |
| Queue.StepKeepsBalance | cjunk/practice/circularqueue.cc:24-62 | every atomic step of any thread keeps permits, claims, writes and reads in balance with the threads under way |
| Queue.PermitsAreConserved | cjunk/practice/circularqueue.cc:15-62 | for any number of threads, both permit counts and the threads between acquire and release sum to the capacity, and claims are never more than the capacity apart |
| Queue.ReleasesStayInBounds | cjunk/practice/circularqueue.cc:27-45 | no release exceeds the capacity |
| Queue.StepKeepsTracking | cjunk/practice/circularqueue.cc:44-59 | no step, and neither compare-exchange block, changes the counters modulo the capacity except by a claim, unless a claim wraps a counter whose modulus the capacity does not divide |
| Queue.SlotsAreClaimNumbers | cjunk/practice/circularqueue.cc:26-59 | for any number of threads, claim number k gets slot k modulo the capacity if the capacity divides the modulus of the counters |
| Queue.ModIsRemainder | cjunk/practice/circularqueue.cc:26 | the remainder by repeated subtraction that the model uses for slots is the remainder operator |
| QueueSafety.StepKeepsInv | cjunk/practice/circularqueue.cc:24-62 | with one thread in a push and one in a pop at most, every step that does not wrap a counter badly keeps unread items in their slots and reads in claim order |
| QueueSafety.InvIsSafe | cjunk/practice/circularqueue.cc:26-44 | that invariant makes every slot access about to happen right |
| QueueSafety.StepKeepsHeadReduced | cjunk/practice/circularqueue.cc:44-59 | a thread that is alone always succeeds in reducing the head after a pop, so the head stays below twice the capacity |
| QueueSafety.ExclusiveRunsAreSafe | cjunk/practice/circularqueue.cc:24-62 | with one producer and one consumer, or capacity one, no interleaving reads an unwritten slot or overwrites an unread one, and the popped items are a prefix of the pushed ones; the capacity divides the modulus of the counters, or a single thread does both and the modulus is at least twice the capacity |
| QueueDelivery.ReadingsAreDelivered | cjunk/practice/circularqueue.cc:42-61 | for any number of threads, the content of every slot that was read is returned by exactly one pop, unaltered, or under way in exactly one thread |
| QueueDelivery.PopReturnsItsSlot | cjunk/practice/circularqueue.cc:44-61 | for any number of threads, a pop returns what its slot held when it read it, whatever steps come in between |
| QueueDelivery.ClaimsAreArguments | cjunk/practice/circularqueue.cc:24-39 | for any number of threads, the items a thread puts into slots are the arguments of its push calls in order |
| QueueDelivery.ResultsWereClaimed | cjunk/practice/circularqueue.cc:24-61 | when runs are safe, every pop returns the item of the push claim with the number of its reading, and no two pops the same one |
| QueueDelivery.FirstInFirstOut | cjunk/practice/circularqueue.cc:24-61 | with one producer and one consumer and counters that hold, the results of pop are the first arguments of push in call order |
| QueueSafety.OneSidedRunsAreSafe | cjunk/practice/circularqueue.cc:24-46 | any number of threads that only push, or only pop, never overwrite a slot or read one, as long as the counters can number all slots |
| QueueSafety.TailNeverExceedsCapacity | cjunk/practice/circularqueue.cc:44-54 | with one consumer the tail counter never exceeds the capacity |
| QueueHazards.TwoProducersHazard | cjunk/practice/circularqueue.cc:36-45 | with two producers and capacity two or more, a run reaches the read of an unwritten slot |
| QueueHazards.TwoConsumersHazard | cjunk/practice/circularqueue.cc:36-45 | with two consumers and capacity two or more, a run reaches the overwriting of an unread slot |
| QueueHazards.ShortCounterHazard | cjunk/practice/circularqueue.cc:26 | with fewer counter values than slots, the producer alone overwrites an unread slot |
| QueueHazards.OneThreadHazard | cjunk/practice/circularqueue.cc:36-59 | a single thread with a modulus between one and two capacities overwrites an unread slot |
| QueueHazards.WrapHazard | cjunk/practice/circularqueue.cc:36-59 | with one producer and one consumer and a capacity that does not divide the modulus, a run in which no head reduction succeeds wraps the head and reads a slot that was not written with that item |
| QueueHazards.ExampleQueueHazard | cjunk/practice/circularqueue.cc:13-65 | the example queue, capacity 10 on 32-bit counters, has such a run |
| QueueHazards.SafeExactlyWhen | cjunk/practice/circularqueue.cc:11-62 | for every capacity, counter modulus and set of threads, every reachable state is safe if and only if the capacity is one or there is one producer and one consumer, and the capacity divides the modulus or both are one thread and the modulus is at least twice the capacity; or nobody pushes; or nobody pops and the modulus is at least the capacity |
| CodeTable.LookupAt | cjunk/cython/simple.cpp:3755-3759 | testing the entry at the bisection point decides membership in the map of the table |
| CodeTable.StoreIsUpdate | cjunk/cython/simple.cpp:3781-3803 | storing in the table is updating the map |
| CodeTable.StoreKeepsOwnership | cjunk/cython/simple.cpp:3782-3804 | a store leaves one reference per entry if and only if the line was not in the table |
| CodeCache.Bisect | cjunk/cython/simple.cpp:3728-3748 | the result splits the sorted entries into smaller lines and the rest |
| CodeCache.ShiftIn | cjunk/cython/simple.cpp:3798-3802 | the shifting loop inserts one entry and keeps all others in order |
| CodeCache.Cache.Find | cjunk/cython/simple.cpp:3749-3762 | lookup agrees with the map and gives the caller one new reference on a hit, and changes nothing on a miss |
| CodeCache.Cache.Insert | cjunk/cython/simple.cpp:3763-3805 | the new map and capacity are those of an insert in a plain map, with line zero, failed allocations, replacement and growth by 64 |
| CodeCache.Cache.FirstEntry | cjunk/cython/simple.cpp:3769-3780 | the first insert allocates 64 entries and stores one |
| CodeCache.Cache.ReplaceEntry | cjunk/cython/simple.cpp:3782-3787 | replacement stores the new object and drops only the old object's reference |
| CodeCache.Cache.AddEntry | cjunk/cython/simple.cpp:3788-3804 | a new entry is stored unless the array is full and memory is refused, which changes nothing |
| CodeCache.Cache.Grow | cjunk/cython/simple.cpp:3788-3797 | growing by 64 entries keeps the contents |
| CodeCache.Cache.InsertEntry | cjunk/cython/simple.cpp:3798-3804 | insertion keeps the table sorted, counts the entry and takes one reference |
| CodeCache.Cache.Obtain | cjunk/cython/simple.cpp:3871-3877 | the code object is found or created and cached, the caller holds one reference, and no stored entry is replaced |
| CodeCache.Cache.AddTraceback | cjunk/cython/simple.cpp:3863-3890 | every entry stays owned exactly once, the map changes by at most one new line, and the only reference left behind is that of a kept frame |
| CodeCache.Cache.Replay | cjunk/cython/simple.cpp:3863-3890 | over every run of calls the cache and the code object each call uses are those of the map that the calls make one after the other, every entry stays owned exactly once, and the references outside the cache have grown by exactly those of the kept frames |
| CodeCache.CallsKeepLines | cjunk/cython/simple.cpp:3863-3890 | over every run of calls no cached line changes its object |
| CodeCache.KeysTellLinesApart | cjunk/cython/simple.cpp:3871 | two calls have the same key if and only if they are for the same C line, or for the same Python line without a C line |
| CodeCache.UsedWasCreatedForTheLine | cjunk/cython/simple.cpp:3863-3890 | from an empty cache, every call uses the object that it or an earlier call created for the same C line, or for the same Python line without a C line |
| CodeCache.LaterCallsAgree | cjunk/cython/simple.cpp:3863-3890 | once a call for a line has an object, and memory to store it, every later call for that line uses the same object |
| CodeCache.KeptByKeepers | cjunk/cython/simple.cpp:3863-3890 | the references left behind for an object are as many as the calls that used it and whose traceback keeps the frame |
| CodeCache.Cache.Operate | cjunk/cython/simple.cpp:3749-3805 | every run of inserts and lookups, with any allocation failures, is answered as a plain map answers it |
| CodeCache.LastEnteredIsFound | cjunk/cython/simple.cpp:3749-3805 | over every run with memory granted, a line is found with the object inserted last, and line zero never |
| CodeCache.FoundWasEntered | cjunk/cython/simple.cpp:3749-3805 | over every run, what is found for a line was inserted for it |
| CodeCache.PresentLinesStay | cjunk/cython/simple.cpp:3781-3805 | over every run, with any allocation failures, a line that is present stays and has the object inserted last |
| CodeCache.CapacityFits | cjunk/cython/simple.cpp:3763-3805 | over every run, the capacity is the multiple of 64 that just holds the entries |
| IntConversion.OrIsSum | cjunk/cython/simple.cpp:3972 | or-ing a digit below shifted digits adds it |
| IntConversion.JoinIsMagnitude | cjunk/cython/simple.cpp:4028-4075 | shifted digits or-ed together equal the positional sum when the type is wide enough |
| IntConversion.VerifyIsExact | cjunk/cython/simple.cpp:3897-3912 | the narrowing check returns the value if it fits the target and raises overflow otherwise |
| IntConversion.FastPathIsExact | cjunk/cython/simple.cpp:4019-4079 | for all widths, every fast path that is taken returns the exact value or raises overflow |
| IntConversion.AsIntIsExact | cjunk/cython/simple.cpp:4135-4321 | the whole conversion returns the exact value if it fits the target and raises overflow otherwise |
| IntConversion.AsIndexIsExact | cjunk/cython/simple.cpp:4625-4686 | the index conversion is exact or raises overflow |
| CompactJson.Serialize | cjunk/trivialJson/json.cpp:40-77 | each kind of node prints its text |
| CompactJson.SerializeList | cjunk/trivialJson/json.cpp:18-38 | the loop with the first flag prints all items with commas between them |
| CompactReread.ReadsTree | cjunk/trivialJson/json.cpp:17-65 | the JSON parser reads the text of a tree with plain strings as the tree, ending where the text ends; with a null list it throws or stops inside the name |
| CompactReread.CompactRoundTrip | cjunk/trivialJson/json.cpp:17-65 | serialized text is parsed back as the tree if and only if it is not a bare number, has no null list and no string with a quotation mark or a backslash |
| CompactJson.TextIsUnique | cjunk/trivialJson/json.cpp:17-65 | equal texts in front of a comma, a closing bracket or the end come from equal trees and end at the same place |
| CompactJson.SerializationIsInjective | cjunk/trivialJson/json.cpp:17-65 | trees whose strings have no quotation mark in front of a comma or a closing bracket print alike if and only if they are equal up to the first NUL of each small string |
| CompactJson.QuoteIsAmbiguous | cjunk/trivialJson/json.cpp:44-51 | two 8-byte strings in a list print like one 8-byte string with a quotation mark, a comma and a quotation mark between them |
| CompactJson.LoneStringIsUnambiguous | cjunk/trivialJson/json.cpp:44-51 | a small string as a whole document prints like no other node, whatever it contains |
| CompactJson.FromCString | cjunk/trivialJson/json.hpp:55-59 | the first eight characters of a C string are kept, and exactly those are printed |
| CompactJson.Length | cjunk/trivialJson/json.hpp:51-53 | the recursive length counts the terminating NUL |
| RingFifo.Fifo.constructor | cjunk/ringBuffer.h:23-26 | a new buffer is empty |
| RingFifo.Fifo.IsEmpty | cjunk/ringBuffer.h:27-29 | equal indices mean no items |
| RingFifo.Fifo.Size | cjunk/ringBuffer.h:30-32 | the size is the number of queued items, also when head is before tail |
| RingFifo.Fifo.Push | cjunk/ringBuffer.h:33-38 | fails exactly when one slot is left and changes nothing then; otherwise appends |
| RingFifo.Fifo.Pop | cjunk/ringBuffer.h:39-44 | fails exactly when empty; otherwise takes the oldest item |
| RingFifo.Fifo.Replay | cjunk/ringBuffer.h:17-44 | every run answers as a bounded queue of capacity N-1 |
| RingFifo.NothingLostOrReordered | cjunk/ringBuffer.h:33-44 | over every run, accepted items come out in order, each once, and the rest is still queued |
| RingFifo.WrappedDifference | cjunk/ringBuffer.h:31 | the doubled truncating remainder is the distance from tail to head |
| Profit.MaxProfit | cjunk/practice/financialAnalysis.cc:25-40 | an upper bound of all gains that is attained by some pair of days |
| Resampling.Accumulate | cjunk/practice/geoParticleFilter.cc:33 | the sum of the weights |
| Resampling.Normalize | cjunk/practice/geoParticleFilter.cc:32-39 | normalised weights are the proportions, sum to one, and are not negative if no weight was |
| Resampling.Resample | cjunk/practice/geoParticleFilter.cc:42-61 | the search stops in range at the first cumulative weight not below the draw; one original particle per draw |
| Resampling.PickedInterval | cjunk/practice/geoParticleFilter.cc:45-57 | each index is picked by exactly the draws of an interval as long as its weight |
| Resampling.ZeroWeightPicked | cjunk/practice/geoParticleFilter.cc:54-58 | a particle of weight zero is picked if and only if it is the first and the draw is zero |

## Left out

- The digits of doubles: `std::stod` and `std::to_string` are parameters, so which doubles six decimals determine is not computed.
- Error message text and console output of both JSON components.
- Characters are not limited to bytes, and calls of the character classification functions on negative characters, which C++ leaves undefined, are taken as "neither space nor digit".
- JsonLayout.PrintedLayout: keys with a quotation mark or a backslash are left out, since they are printed unescaped and the text does not tell where they end.
- CodeCache.UsedWasCreatedForTheLine: line numbers are not negative.
- JsonCursor.Serialize: indentation levels are natural numbers; a negative level, for which C++ throws, is not modelled.
- Queue: slot accesses are single steps, and the memory model is sequentially consistent, which is the default ordering of the source's atomics.
- CodeCache.Cache.Insert: entry counts and line numbers are unbounded integers.
- CodeCache.Cache.AddTraceback: the choice of the C line by the runtime setting is part of the call; reference counts of frames, strings and tracebacks are not modelled.
- IntConversion.AsIntIsExact: the unsigned branches, which are dead for these signed targets, the Python 2 branch, and objects that are not integers are not modelled; `PyLong_AsLong` and `PyLong_AsSsize_t` are taken to be exact or to raise.
- CompactJson.SerializationIsInjective: nodes that hold doubles are not modelled, and for lists with strings that have a quotation mark in front of a comma or a bracket only the ambiguity of `QuoteIsAmbiguous` is shown, not which of them are ambiguous.
- Profit.MaxProfit: prices that rise by more than the largest int, for which C++ leaves the subtraction undefined, are excluded.
- Resampling.Normalize: weights are exact reals; rounding, and the infinite and not-a-number results of non-empty weights with sum zero, are not modelled.
- Deep copies of values and nodes, which are identities on values.
- The other files of the repository: sockets, graphics, filters and module set-up over libraries that are not part of it, and easy members only.
