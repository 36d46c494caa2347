# Site builder core, modelled in Dafny

This project models five pieces of a website builder written in Java (on Google App Engine) and TypeScript:

- **`ShardedCounters`** (`sharded_counter.dfy`) is the sharded counter and its deferred grow task.
  - A named counter spreads its total over per-shard `count` records, so that concurrent increments seldom collide.
  - It keeps three soft memcache entries: the shard count, the total and an error tally.
  - After a write conflict, a grow task debounced through memcache adds shards.
  - The datastore, memcache and the default task queue are the fields of one `Services` object.
  - The random shard number and the way the datastore transaction ends are inputs.
  - Memcache eviction and expiry are an explicit step.
- **`Collections`** (`collections.dfy`) is the `collections` script module that the page editor loads.
  - It contains a doubly linked list with head and tail sentinels, its forward, descending and filtering iterators, a string-keyed dictionary, and the traversal helpers `forEach`, `forCombinations` and `forPermutations`.
  - The list is a class over heap nodes with a ghost chain of nodes and a ghost sequence of contents.
  - Each traversal returns the sequence of callback arguments it used, specified by a function on the list contents.
  - `PageEditor/scripts/utils.js` is the compiled form of `FilePicker/scripts/utils.ts`. The table cites the compiled file, which is the copy the page editor runs.
- **`Media`** (`media.dfy`) covers media directories and images.
  - A directory has an ordered list of child keys.
  - Its parent-kind whitelist and sub-directory blacklist are substring tests.
  - An image's shape code makes it portrait, landscape or square.
- **`ImageServing`** (`image_serving.dfy`) is the image servlet.
  - Browser-size classes come from the screen width.
  - The cookie and query-string loops of `doGet`, and its choice of the `=sN` size suffix, are part of the model.
  - Java's `int` parsing, printing, truncating division and 32-bit multiplication are written out.
- **`PageEditor`** (`page_editor.dfy`) is the page editor's drop grammar and drag state.
  - It says which container accepts which child type.
  - It models the editor's "dragging" state that the toolbar buttons and `endDrag` change, and the drop-target click.

`wrappers.dfy` holds the `Option` and `Result` types that model `null` and thrown exceptions.

Where the code and its documentation disagree, the model follows the code:

- **`addShards`** calls `getShardCount`, which caches the shard count when it is absent. The cached count is therefore always present when `addShards` increments it. Afterwards the cache and the datastore agree (`ShardedCounter.AddShards`).
- **The shard write in `increment`** (ShardedCounter.java:211) is a `put` without a transaction argument. It therefore joins the transaction begun at line 199. A ConcurrentModificationException, on the read or on the commit, discards the write, so a conflict changes no shard (`Commit` is `Committed` or `Conflict`).
- **The error tally** is bumped with memcache `increment(key, 1, 1)`. When the entry is absent it is seeded with the initial value 1 and then incremented, so it becomes 2.
- **The grow task's delta** `errors > 2 ? errors / 2 : 2` is 1 for a tally of 3. It is not at least 2 (see Findings).

## Model

| member | source | states |
|---|---|---|
| `Collections.LinkElement.constructor` | PageEditor/scripts/utils.js:11-15 | a new node is linked to nothing and holds no value |
| `Collections.RemovalIndex` | PageEditor/scripts/utils.js:162-166 | the value-removal walk stops at the first element equal to the value, or at the last element when no element is equal |
| `Collections.LinkedList.constructor` | PageEditor/scripts/utils.js:115-123 | a new list is valid and empty, its head and tail sentinels linked only to each other, length 0 |
| `Collections.LinkedList.Length` | PageEditor/scripts/utils.js:173-175 | the `_length` counter equals the number of elements between the sentinels |
| `Collections.LinkedList.Add` | PageEditor/scripts/utils.js:130-138 | the element is appended after the last one in a new node just before the tail sentinel; the earlier elements and their nodes are unchanged, so existing iterators stay valid |
| `Collections.LinkedList.Get` | PageEditor/scripts/utils.js:139-147 | index i in range gives the i-th element in insertion order; index `length` gives the tail sentinel's null; a negative index gives the first element |
| `Collections.LinkedList.RemoveAt` | PageEditor/scripts/utils.js:148-160 | `remove(k)` walks from the head sentinel, so it unlinks and returns the element at 0-based index k-1; the rest keep their order |
| `Collections.LinkedList.Remove` | PageEditor/scripts/utils.js:161-171 | `remove(e)` unlinks and returns the first element equal to `e`, or the last element when none is equal; length drops by one |
| `Collections.LinkedList.Iterator` | PageEditor/scripts/utils.js:176-178 | a forward iterator over this list whose cursor and start are the head sentinel |
| `Collections.LinkedList.DescendingIterator` | PageEditor/scripts/utils.js:179-181 | a descending iterator whose cursor and start node are both `last.previous`: the last element, or the head sentinel when the list is empty |
| `Collections.LinkedListIterator.constructor` | PageEditor/scripts/utils.js:20-25 | the cursor and the start node are the given node of the list |
| `Collections.LinkedListIterator.HasNext` | PageEditor/scripts/utils.js:26-29 | true exactly when an element follows the cursor |
| `Collections.LinkedListIterator.Next` | PageEditor/scripts/utils.js:30-36 | returns the element after the cursor and advances by one; at the end returns null and stays |
| `Collections.LinkedListIterator.HasPrevious` | PageEditor/scripts/utils.js:37-40 | true exactly when the cursor is on an element, not on a sentinel |
| `Collections.LinkedListIterator.Previous` | PageEditor/scripts/utils.js:41-47 | returns the element under the cursor and steps back by one; on the head sentinel returns null and stays |
| `Collections.LinkedListIterator.Remove` | PageEditor/scripts/utils.js:48-57 | unlinks and returns the element after the cursor, leaving the cursor in place; at the end returns null and changes nothing |
| `Collections.LinkedListIterator.Insert` | PageEditor/scripts/utils.js:58-66 | the element is inserted right after the cursor; the rest of the list keeps its order |
| `Collections.LinkedListIterator.Swap` | PageEditor/scripts/utils.js:67-71 | the element after the cursor is replaced and its old value returned, with the nodes and the length unchanged; with the cursor on the last element, `null` is returned, the elements are unchanged and `e` is stored in the tail sentinel |
| `Collections.LinkedListIterator.Reset` | PageEditor/scripts/utils.js:72-74 | the cursor goes back to the start node, which is position 0 for an iterator started at the head |
| `Collections.LinkedListIterator.Clone` | PageEditor/scripts/utils.js:75-77 | a new iterator over the same list, whose cursor and start node are this cursor |
| `Collections.DescendingLinkedListIterator.constructor` | PageEditor/scripts/utils.js:82-84 | a descending iterator over the list with its cursor on the given node |
| `Collections.DescendingLinkedListIterator.HasNext` | PageEditor/scripts/utils.js:85-87 | true exactly when the cursor is on an element, so `next` walks towards the head |
| `Collections.DescendingLinkedListIterator.Next` | PageEditor/scripts/utils.js:88-90 | returns the element under the cursor and steps towards the head: the elements come in reverse insertion order |
| `Collections.DescendingLinkedListIterator.HasPrevious` | PageEditor/scripts/utils.js:91-93 | true exactly when an element follows the cursor |
| `Collections.DescendingLinkedListIterator.Previous` | PageEditor/scripts/utils.js:94-96 | returns the element after the cursor and steps towards the tail |
| `Collections.DescendingLinkedListIterator.Remove` | PageEditor/scripts/utils.js:97-100 | steps back, then unlinks the element after the cursor; on the head sentinel it unlinks the first element |
| `Collections.DescendingLinkedListIterator.Insert` | PageEditor/scripts/utils.js:101-104 | steps back, then inserts after the new cursor position |
| `Collections.DescendingLinkedListIterator.Swap` | PageEditor/scripts/utils.js:105-108 | steps back, then replaces the element after the cursor and returns its old value; on an empty list the cursor stays on the head sentinel, `null` is returned and `e` is stored in the tail sentinel |
| `Collections.DescendingLinkedListIterator.Reset` | PageEditor/scripts/utils.js:72-74 | inherited: the cursor goes back to the start node |
| `Collections.DescendingLinkedListIterator.Clone` | PageEditor/scripts/utils.js:109-111 | a new descending iterator over the same list whose cursor and start node are both this iterator's cursor |
| `Collections.FilterIterator.constructor` | PageEditor/scripts/utils.js:186-189 | wraps the given iterator and filter |
| `Collections.FilterIterator.HasNext` | PageEditor/scripts/utils.js:190-193 | always true, whatever is left to iterate |
| `Collections.FilterIterator.HasPrevious` | PageEditor/scripts/utils.js:203-206 | always true, whatever is left to iterate |
| `Collections.NextMatch` | PageEditor/scripts/utils.js:194-202 | the first position at or after the cursor whose element the filter accepts, with every element skipped rejected, or the end |
| `Collections.PreviousMatch` | PageEditor/scripts/utils.js:207-215 | the nearest position at or before the cursor whose element the filter accepts, with every element skipped rejected, or the head |
| `Collections.FilterIterator.Next` | PageEditor/scripts/utils.js:194-202 | returns the next element the filter accepts and leaves the cursor just past it; null at the end |
| `Collections.FilterIterator.Previous` | PageEditor/scripts/utils.js:207-215 | returns the nearest earlier element the filter accepts and leaves the cursor before it; null at the head |
| `Collections.FilterIterator.Remove` | PageEditor/scripts/utils.js:216-225 | unlinks the next element the filter accepts and nothing else; the list is unchanged when none is left |
| `Collections.FilterIterator.Insert` | PageEditor/scripts/utils.js:226-228 | inserts right after the inner cursor |
| `Collections.FilterIterator.Swap` | PageEditor/scripts/utils.js:229-231 | replaces the element after the inner cursor and returns its old value; with the inner cursor on the last element, `null` is returned and `e` is stored in the tail sentinel |
| `Collections.FilterIterator.Reset` | PageEditor/scripts/utils.js:232-234 | the inner cursor goes back to its start node |
| `Collections.FilterIterator.Clone` | PageEditor/scripts/utils.js:235-237 | a filter iterator with the same filter over a clone of the inner iterator, whose cursor and start node are both the inner cursor |
| `Collections.CallsUntilFalseMeaning` | PageEditor/scripts/utils.js:321-323 | a traversal that stops after a falsy result makes a prefix of its calls; all but the last returned true, and the last was false if it stopped early |
| `Collections.CallsUntilFalsePrefix` | PageEditor/scripts/utils.js:321-323 | conversely, such a prefix is exactly the calls made |
| `Collections.CallsUntilFalseAppend` | PageEditor/scripts/utils.js:336-342 | running over two argument lists in turn goes on into the second only if the last call on the first returned true |
| `Collections.PairsFromComplete` | PageEditor/scripts/utils.js:336-342 | `forCombinations` offers every pair of positions i < j |
| `Collections.PairsFromOrdered` | PageEditor/scripts/utils.js:336-342 | it offers only pairs of positions i < j: no element is paired with itself or an earlier one |
| `Collections.PairsFromCount` | PageEditor/scripts/utils.js:336-342 | n elements give n(n-1)/2 pairs |
| `Collections.CallWithLater` | PageEditor/scripts/utils.js:338-341 | a clone of the outer iterator pairs the element with each later element until a call returns false |
| `Collections.CallUntilFalse` | PageEditor/scripts/utils.js:339-341 | the inner loop calls the callback on the remaining elements, in order, until a call returns false |
| `Collections.CombinationRow` | PageEditor/scripts/utils.js:336-342 | one outer step pairs the next element with all later ones, stopping at a falsy result; the outer cursor advances by one |
| `Collections.ForCombinations` | PageEditor/scripts/utils.js:326-343 | the calls are all pairs (i < j) in lexicographic order, cut right after the first falsy result |
| `Collections.WithIndexZero` | PageEditor/scripts/utils.js:320-322 | every call gets its element and the index 0, which is never incremented |
| `Collections.ForEach` | PageEditor/scripts/utils.js:317-324 | calls the callback on the elements in order with index 0, stopping right after the first falsy result |
| `Collections.PermutationCallsWholeRows` | PageEditor/scripts/utils.js:304-315 | `forPermutations` makes whole rows of pairings, taken from the front |
| `Collections.PermutationCallsAllTrue` | PageEditor/scripts/utils.js:304-315 | when every call returns true, every element of the first list is paired with every element of the second |
| `Collections.PermutationCallsStopAfterRow` | PageEditor/scripts/utils.js:304-315 | a falsy last call of a row ends the traversal after that row |
| `Collections.PermutationsIgnoreEarlyFalse` | PageEditor/scripts/utils.js:310-312 | a falsy call before the end of a row does not stop the row (an example where four calls are made and not one) |
| `Collections.CallWithAll` | PageEditor/scripts/utils.js:310-313 | the inner loop pairs the element with every element of the second list, whatever the results, then resets |
| `Collections.CallWithRest` | PageEditor/scripts/utils.js:310-312 | the inner loop calls the callback on every remaining element of the second list |
| `Collections.PermutationRow` | PageEditor/scripts/utils.js:308-314 | one outer step makes one whole row; the stop flag is the row's last result |
| `Collections.ForPermutations` | PageEditor/scripts/utils.js:304-315 | the calls are the rows of all pairings up to and including the first row whose last call is falsy |
| `Collections.Dictionary.constructor` | PageEditor/scripts/utils.js:355-357 | the given object, or an empty one |
| `Collections.Dictionary.Put` | PageEditor/scripts/utils.js:358-360 | stores the value under the name, replacing any earlier one, and changes no other name |
| `Collections.Dictionary.Get` | PageEditor/scripts/utils.js:361-363 | the stored value exactly when the name is present, else nothing |
| `Collections.Dictionary.Has` | PageEditor/scripts/utils.js:364-366 | true exactly when the name is present |
| `Collections.Dictionary.Remove` | PageEditor/scripts/utils.js:367-371 | returns the value that was stored under the name, if any, and deletes that name only |
| `ShardedCounters.Services.Evict` | SiteBuilder/src/com/utz/core/utils/ShardedCounter.java:339 | memcache drops one entry (an eviction, or the 5000 ms expiry of a `GrowTask:` entry) and nothing else changes |
| `ShardedCounters.LookupMissesStoredCounters` | SiteBuilder/src/com/utz/core/utils/ShardedCounter.java:108 | the lookup key of `counterByName` differs from the key every counter is stored under (line 58), so no stored counter is ever found |
| `ShardedCounters.Bumped` | SiteBuilder/src/com/utz/core/utils/ShardedCounter.java:214-215 | memcache `increment` changes only an existing entry, by the delta, and creates none |
| `ShardedCounters.BumpedOrSeeded` | SiteBuilder/src/com/utz/core/utils/ShardedCounter.java:219 | increment with an initial value: an existing entry is bumped by `delta`, and an absent one is created holding `initial + delta` |
| `ShardedCounters.ConflictTally` | SiteBuilder/src/com/utz/core/utils/ShardedCounter.java:217-221 | after a conflict the error tally rises by one when present, and the first conflict leaves it at 2 (seeded with 1, then incremented); the debounce does not touch it |
| `ShardedCounters.TotalOverRemove` | SiteBuilder/src/com/utz/core/utils/ShardedCounter.java:248-251 | the shard sum does not depend on the order the shard records are visited in |
| `ShardedCounters.TotalOverAgree` | SiteBuilder/src/com/utz/core/utils/ShardedCounter.java:248-251 | two shard maps that agree on a set of shards have the same sum over it |
| `ShardedCounters.TotalUpdate` | SiteBuilder/src/com/utz/core/utils/ShardedCounter.java:202-211 | writing v into a shard changes the total by v minus the shard's old count |
| `ShardedCounters.WrittenCountGrowsOnlyNewShards` | SiteBuilder/src/com/utz/core/utils/ShardedCounter.java:202-210 | as written, an increment raises the total by 1 when it creates a shard and by 0 when the shard exists |
| `ShardedCounters.IntendedCountAddsOne` | SiteBuilder/src/com/utz/core/utils/ShardedCounter.java:204-205 | with the intended write, every increment raises the total by exactly 1 |
| `ShardedCounters.DebounceEnqueuesOnce` | SiteBuilder/src/com/utz/core/utils/ShardedCounter.java:316-341 | while the `GrowTask:` entry lives, any number of calls keep the earlier queue and enqueue at most one task, with a 5000 ms countdown. When the entry was absent they enqueue exactly one, the first call's; when it was there, none |
| `ShardedCounters.DebounceStaysOnce` | SiteBuilder/src/com/utz/core/utils/ShardedCounter.java:330-331 | once the `GrowTask:` entry is present, further calls change neither the cache nor the queue |
| `ShardedCounters.DebounceTask` | SiteBuilder/src/com/utz/core/utils/ShardedCounter.java:327-341 | one call enqueues a task and records its handle only if no `GrowTask:` entry exists; the datastore is untouched |
| `ShardedCounters.GrowthDeltaDips` | SiteBuilder/src/com/utz/core/utils/ShardedCounter.java:355 | as written, a tally of 3 adds 1 shard while an absent tally and the tallies 2 and 4 add 2, so the growth is not monotone |
| `ShardedCounters.IntendedGrowthDeltaProperties` | SiteBuilder/src/com/utz/core/utils/ShardedCounter.java:355 | the intended delta is at least 2, grows with the tally, is half of any tally above 4, and differs from the written one only at 3 |
| `ShardedCounters.ShardedCounter.constructor` | SiteBuilder/src/com/utz/core/utils/ShardedCounter.java:57-71 | a new counter's entity has the given shard count and error count 0; the shard count and a zero tally are cached; nothing is stored |
| `ShardedCounters.ShardedCounter.FromEntity` | SiteBuilder/src/com/utz/core/utils/ShardedCounter.java:79-90 | wraps a stored counter and overwrites the cached shard count and error tally with the entity's values |
| `ShardedCounters.ShardedCounter.GetShardCount` | SiteBuilder/src/com/utz/core/utils/ShardedCounter.java:172-183 | the cached shard count if present, else the stored one (or the in-memory one if none is stored), which is then cached |
| `ShardedCounters.ShardedCounter.AddShards` | SiteBuilder/src/com/utz/core/utils/ShardedCounter.java:146-163 | stores `getShardCount() + delta` as the shard count; afterwards the cached shard count equals the stored one; shards and queue are untouched |
| `ShardedCounters.ShardedCounter.Increment` | SiteBuilder/src/com/utz/core/utils/ShardedCounter.java:194-230 | the counter keeps its entity when the shard count is cached and otherwise takes the stored one, as `getShardCount` does. A shard count of 0 or less throws before any write. Otherwise the shard `nextInt(n)` is written exactly when the transaction commits, and a conflict changes no shard. A commit bumps the cached total only if it is present. A conflict leaves the total alone, bumps or seeds the tally and debounces one grow task |
| `ShardedCounters.ShardedCounter.GetCount` | SiteBuilder/src/com/utz/core/utils/ShardedCounter.java:241-257 | the cached total if present, else the sum of `count` over every shard record of the counter, which is then cached exactly |
| `ShardedCounters.Wrap` | SiteBuilder/src/com/utz/core/utils/ShardedCounter.java:79-90 | an entity of another kind is refused (IllegalArgumentException) with no cache change; a counter entity is wrapped and its values cached |
| `ShardedCounters.FindOrCreate` | SiteBuilder/src/com/utz/core/utils/ShardedCounter.java:107-139 | an entity under the key is wrapped, unchanged, with its shard and error counts cached, or gives null if of the wrong kind. Otherwise `shards > 0` creates and stores a counter with that shard count and error count 0, cached. Otherwise it gives null with nothing changed |
| `ShardedCounters.CounterByName` | SiteBuilder/src/com/utz/core/utils/ShardedCounter.java:107-139 | as written: a counter is returned exactly when `shards > 0`. Each such call stores a new entity over the existing counter, resetting its shard count to `shards` and its error count to 0. It caches that shard count and a zero tally and returns a fresh counter for the new entity; otherwise nothing changes |
| `ShardedCounters.CounterByNameIntended` | SiteBuilder/src/com/utz/core/utils/ShardedCounter.java:96-106 | an existing counter is returned with its entity untouched, whatever `shards` is, and its stored shard and error counts are cached. A missing one is created, stored and cached with `shards` and 0 only when `shards > 0`, and nothing changes otherwise |
| `ShardedCounters.RunTask` | SiteBuilder/src/com/utz/core/utils/ShardedCounter.java:344-362 | as written: a missing counter changes nothing. Otherwise the shard count grows by the delta of the tally read after the tally was overwritten with the stored error count, and the tally is deleted. With the counter's own tally key, the growth depends only on the stored error count |
| `ShardedCounters.RunTaskIntended` | SiteBuilder/src/com/utz/core/utils/ShardedCounter.java:344-362 | the tally is read first. The stored shard count grows by at least 2, following the conflicts counted, and the cached shard count agrees with it. The tally is deleted |
| `Media.WhitelistedKinds` | SiteBuilder/src/com/utz/core/media/MediaDirectory.java:78 | every kind listed on the parent whitelist passes the parent check |
| `Media.WhitelistIsSubstringTest` | SiteBuilder/src/com/utz/core/media/MediaDirectory.java:124-127 | the parent check is a substring test: `dir`, `user-g`, `t;u` and the empty kind pass too |
| `Media.DirectoryKindWhitelisted` | SiteBuilder/src/com/utz/core/media/MediaDirectory.java:78 | a directory may be created under a directory |
| `Media.BlacklistIsSubstringTest` | SiteBuilder/src/com/utz/core/media/MediaDirectory.java:63 | `blog-post` is blacklisted, and so are `blog`, `post` and the empty kind |
| `Media.BlacklistAdmits` | SiteBuilder/src/com/utz/core/media/MediaDirectory.java:199-205 | directories and users are not blacklisted |
| `Media.RemoveFirstAbsent` | SiteBuilder/src/com/utz/core/media/MediaDirectory.java:238-243 | removing an absent key leaves the list unchanged |
| `Media.RemoveFirstPresent` | SiteBuilder/src/com/utz/core/media/MediaDirectory.java:238-243 | removal takes out exactly the first occurrence and keeps the order of the rest |
| `Media.RemoveFirstMultiset` | SiteBuilder/src/com/utz/core/media/MediaDirectory.java:238-243 | removal takes one copy of the key out of the list's multiset and nothing else |
| `Media.RemoveFirstUndoesAppend` | SiteBuilder/src/com/utz/core/media/MediaDirectory.java:211-243 | removing a key just appended to a list that lacked it gives the list back |
| `Media.MediaDirectory.GetType` | SiteBuilder/src/com/utz/core/media/MediaDirectory.java:339-342 | always the directory media type |
| `Media.MediaDirectory.ListChildKeys` | SiteBuilder/src/com/utz/core/media/MediaDirectory.java:277-281 | empty when the children property is absent, else the stored list |
| `Media.MediaDirectory.GetParentKey` | SiteBuilder/src/com/utz/core/media/MediaDirectory.java:190-192 | the parent key when one is stored; a stored numeric id makes the cast fail |
| `Media.MediaDirectory.SupportsSubDirectories` | SiteBuilder/src/com/utz/core/media/MediaDirectory.java:199-205 | fails exactly when the parent key cannot be read; otherwise false exactly when the parent kind is a substring of the blacklist |
| `Media.MediaDirectory.AddChildEntry` | SiteBuilder/src/com/utz/core/media/MediaDirectory.java:211-222 | a non-directory child is always appended. A directory child is appended exactly when sub-directories are supported. An append keeps order and duplicates, and a refusal changes nothing |
| `Media.MediaDirectory.RemoveChildEntry` | SiteBuilder/src/com/utz/core/media/MediaDirectory.java:229-243 | the first occurrence of the key is removed; the list shrinks by one exactly when the key was present |
| `Media.DirectoryFromEntity` | SiteBuilder/src/com/utz/core/media/MediaDirectory.java:87-91 | refuses exactly the entities whose kind is not `media-dir`; otherwise a directory with the entity's properties |
| `Media.DirectoryFromKey` | SiteBuilder/src/com/utz/core/media/MediaDirectory.java:98-111 | succeeds exactly for a `media-dir` key under which an entity is stored, without checking that entity's kind again; the directory takes the entity's key, name, parent and children |
| `Media.CreateDirectory` | SiteBuilder/src/com/utz/core/media/MediaDirectory.java:124-161 | as written: under a non-directory parent, succeeds exactly when the parent's kind is a substring of the whitelist, so `user-g` or an empty kind passes. Under a directory, it succeeds exactly when that directory supports sub-directories, and then appends the new key to its children; a refusal leaves them unchanged. The new directory is named `name` and has no children. The parent's numeric id is stored, so the new directory cannot answer `supportsSubDirectories`, and creating under it fails |
| `Media.CreateDirectoryIntended` | SiteBuilder/src/com/utz/core/media/MediaDirectory.java:124-161 | under a non-directory parent, succeeds exactly when the parent's kind is a substring of the whitelist. Under a directory, it succeeds exactly when that directory supports sub-directories and appends the new key to its children; a refusal leaves them unchanged. The new directory is named `name`, has no children, and supports sub-directories exactly when its parent's kind is not blacklisted |
| `Media.MediaImage.GetType` | SiteBuilder/src/com/utz/core/media/MediaImage.java:232-235 | always the image media type |
| `Media.ShapesExclusive` | SiteBuilder/src/com/utz/core/media/MediaImage.java:155-175 | at most one shape predicate holds. The 9x16 and 3x4 codes are portrait, 16x9 and 4x3 are landscape, and 0x0300 is square. Codes outside 0x0100-0x0300 satisfy none |
| `Media.ImageFromEntity` | SiteBuilder/src/com/utz/core/media/MediaImage.java:49-53 | refuses exactly the entities whose kind is not `media-image`, and otherwise wraps the entity with all its fields: key, name, parent, object name, shape and serving URL |
| `Media.ImageFromKey` | SiteBuilder/src/com/utz/core/media/MediaImage.java:79-91 | succeeds exactly for a `media-image` key with a stored entity, whose key, name, parent, object name, shape and serving URL it takes |
| `ImageServing.ClassForWidth` | SiteBuilder/src/com/utz/server/utils/BrowserClasses.java:6-17 | mobile exactly up to 600 pixels, tablet exactly from 601 to 992, desktop exactly above 992 |
| `ImageServing.ClassForWidthMonotone` | SiteBuilder/src/com/utz/server/utils/BrowserClasses.java:6-17 | a wider screen never gets an earlier class |
| `ImageServing.Wrap32` | SiteBuilder/src/com/utz/server/media/ImageServlet.java:157 | Java's `int` product: a 32-bit value equal to the exact one modulo 2^32, and the exact one when it fits |
| `ImageServing.ParseInt` | SiteBuilder/src/com/utz/server/media/ImageServlet.java:41 | `Integer.parseInt` yields only 32-bit values |
| `ImageServing.ShowNatDigits` | SiteBuilder/src/com/utz/server/media/ImageServlet.java:112 | the decimal form of a natural number is a non-empty digit string of that value |
| `ImageServing.ParseShow` | SiteBuilder/src/com/utz/server/media/ImageServlet.java:41 | `parseInt` reads back the decimal form of every `int` |
| `ImageServing.ParseIntRefuses` | SiteBuilder/src/com/utz/server/media/ImageServlet.java:43-45 | the empty value, a lone sign and values with other characters are refused |
| `ImageServing.ToUpper` | SiteBuilder/src/com/utz/server/media/ImageServlet.java:69 | same length; lower-case ASCII letters become upper-case and every other character is kept |
| `ImageServing.ValueOf` | SiteBuilder/src/com/utz/server/media/ImageServlet.java:93 | a constant is returned only for its exact name |
| `ImageServing.ValueOfName` | SiteBuilder/src/com/utz/server/media/ImageClasses.java:11 | every image class is found by its name |
| `ImageServing.CookieValueSkips` | SiteBuilder/src/com/utz/server/media/ImageServlet.java:37-56 | later cookies of another name, or whose value does not parse, do not change the dimension an earlier cookie set |
| `ImageServing.ReadDimensions` | SiteBuilder/src/com/utz/server/media/ImageServlet.java:34-56 | the width and height are those of the last parsable `browser-width` and `browser-height` cookies, defaulting to 990 and 0 |
| `ImageServing.LastClassWins` | SiteBuilder/src/com/utz/server/media/ImageServlet.java:64-70 | the last pair named `c` (any case) sets the class to its upper-cased value |
| `ImageServing.LastKeyWins` | SiteBuilder/src/com/utz/server/media/ImageServlet.java:64-74 | the last pair named `k` (any case) sets the image key |
| `ImageServing.ReadQuery` | SiteBuilder/src/com/utz/server/media/ImageServlet.java:58-74 | the class and key the query selects, defaulting to `CARD` and the empty key |
| `ImageServing.ScreenClass` | SiteBuilder/src/com/utz/server/media/ImageServlet.java:96-101 | the larger dimension decides: MOBILE exactly when both width and height are at most 600, DESKTOP exactly when either exceeds 992, TABLET otherwise |
| `ImageServing.CardSizes` | SiteBuilder/src/com/utz/server/media/ImageServlet.java:109-141 | cards are served at d, d/2 and d/3 on phone, tablet and desktop, where d is the width of a landscape image and the height otherwise; banners always at d |
| `ImageServing.GallerySizes` | SiteBuilder/src/com/utz/server/media/ImageServlet.java:143-169 | gallery images are served at d, except non-landscape images (portrait, square or of an unknown shape code) on a tablet, which get three quarters of the height |
| `ImageServing.FixedSizes` | SiteBuilder/src/com/utz/server/media/ImageServlet.java:103-107 | thumbnails get `=s128` and icons `=s32`, whatever the screen and the image |
| `ImageServing.DoGet` | SiteBuilder/src/com/utz/server/media/ImageServlet.java:32-172 | with no cookies or no query string it throws NullPointerException. Otherwise the response follows the dimensions of the cookie loop and the class and key of the query loop |
| `ImageServing.EmptyKeyNotFound` | SiteBuilder/src/com/utz/server/media/ImageServlet.java:76-79 | an empty image key gives status 404 and no redirect |
| `ImageServing.RespondRedirectsTwice` | SiteBuilder/src/com/utz/server/media/ImageServlet.java:171 | as written, a served image always gets two redirects: the sized URL, then the plain one |
| `ImageServing.RespondIntendedRedirectsOnce` | SiteBuilder/src/com/utz/server/media/ImageServlet.java:103-171 | with the intended response a served image gets exactly one redirect, to its sized URL, and every other outcome is unchanged |
| `PageEditor.ContainersAreNotText` | PageEditor/scripts/editor.ts:176-181 | no component type is both a container and a text component (editor.ts:359-363) |
| `PageEditor.NestedContainer` | PageEditor/scripts/editor.ts:233-312 | the container a container accepts is another container and never a parallax |
| `PageEditor.AcceptedContainerIsNested` | PageEditor/scripts/editor.ts:233-312 | among containers, parallax and grid accept exactly a row, a row exactly a column, and a column exactly a grid |
| `PageEditor.NoSelfOrParallaxChild` | PageEditor/scripts/editor.ts:233-312 | no container accepts a parallax or its own type |
| `PageEditor.LeavesOnlyInColumns` | PageEditor/scripts/editor.ts:308-312 | a non-container type is accepted by a column and by no other container |
| `PageEditor.TextOnlyInColumns` | PageEditor/scripts/editor.ts:359-363 | text components are not containers and are accepted only by columns |
| `PageEditor.Component.AddChild` | PageEditor/scripts/editor.ts:145-150 | the child is appended to the container's children; reading its element fails exactly for null |
| `PageEditor.Editor.constructor` | PageEditor/scripts/editor.ts:5 | the editor starts not dragging, with no component, and with its drag shadow unset (editor.ts:7 declares it and nothing assigns it) |
| `PageEditor.Editor.StartDrag` | PageEditor/scripts/editor.ts:14-41 | the parallax, container, row and column buttons start dragging a new, empty component of that type; showing the shadow then throws exactly when it is unset |
| `PageEditor.Editor.StartCardPanelDrag` | PageEditor/scripts/editor.ts:61-66 | the card-panel button starts dragging but leaves the dragged component as it was; showing the shadow then throws exactly when it is unset |
| `PageEditor.Editor.EndDrag` | PageEditor/scripts/editor.ts:78-82 | dragging stops and the dragged component is cleared, then hiding the shadow throws exactly when it is unset |
| `PageEditor.DropTargetClick` | PageEditor/scripts/editor.ts:194-201 | as written: a click never drops the component. It acts only while dragging, and a drag with no component fails on `getType`. When the container accepts the type, the drag ends and `endDrag` throws on the unset shadow, leaving the children unchanged. Were the shadow set, null would be appended and the click would fail |
| `PageEditor.DropTargetClickIntended` | PageEditor/scripts/editor.ts:194-201 | a click drops the dragged component exactly when dragging, the container accepts its type and the shadow is set. A refused type is ignored with nothing changed. An accepted click with the shadow unset ends the drag and fails, leaving the children unchanged. A drop ends the drag and appends the component. Well-nested children stay well nested |

## Left out

- `MergeIterator` (PageEditor/scripts/utils.js:241-303) is not modelled. It only dispatches to the two iterators it merges, and those are modelled. Proving it would need two list footprints in every frame condition.
- `isList` and the list argument of `forCombinations` are not modelled. `isList` checks own properties, and a list's methods are on its prototype, so a list is treated as an iterator and the call fails. `Collections.ForCombinations` models the iterator argument.
- The `math` module (floating-point vectors and matrices) and the `Logging` module (console output) of the script utilities are left out.
- `Collections.LinkedList.Get`: an index past the tail sentinel dereferences null in the source. The model requires `index <= length`.
- `Collections.LinkedList.RemoveAt`: `remove(0)` and `remove(length + 1)` dereference null in the source. The model requires `1 <= k <= length`.
- `Collections.LinkedList.Remove`: value removal on an empty list unlinks the head sentinel and dereferences null. The model requires a non-empty list.
- `Collections.LinkedListIterator.Reset`: requires the start node to be still linked into the list. Iterators whose cursor or start node has been unlinked (by `remove` on a descending iterator standing on its start node, or through the list or another iterator) are not modelled, and `Valid()` excludes them. On such an iterator `reset` puts the cursor back on the detached node, which keeps the links it had when it was unlinked, so further steps follow those stale links.
- `Collections.DescendingLinkedListIterator.Reset`: requires the base iterator's start node to be still linked, for the same reason as `Collections.LinkedListIterator.Reset`; a descending iterator whose `remove` unlinked its own start node is not modelled.
- `Collections.FilterIterator.Reset`: requires the inner iterator's start node to be still linked, for the same reason as `Collections.LinkedListIterator.Reset`.
- `Collections.LinkedListIterator.Next`, `Remove` and `Insert` with the cursor on the tail sentinel dereference null. The model requires the cursor before the tail.
- `Collections.LinkedListIterator.Swap`: with the cursor on the last element, the write of `e` into the tail sentinel (utils.js:67-71) is modelled, but the list then no longer meets `Valid()`, so no later operation on it is modelled. In the source the sentinel then counts as an element: `hasNext()` on the last element answers true, and stepping past the sentinel dereferences null.
- `Collections.DescendingLinkedListIterator.Swap`: the same holds after its write into the tail sentinel of an empty list (utils.js:105-108).
- `Collections.FilterIterator.Swap`: the same holds after its write into the tail sentinel when the inner cursor is on the last element (utils.js:229-231).
- `Collections.LinkedList.Remove`: the source's `remove` treats every number as an index (utils.js:149). On a list of numbers, `remove(v)` is therefore always `Collections.LinkedList.RemoveAt`. The model keeps the two paths as separate methods, so `Remove` does value removal at any element type.
- `Collections.LinkedList.Add`: the source tests `value !== null` to recognise a sentinel, so a `null` element stops iteration early and misleads removal. The model stores elements as `Some(e)` and sentinels as `None`, so null elements, and what they break, are not modelled.
- `Collections.FilterIterator`: the source wraps any iterator (utils.js:186), such as a descending one or another filter. The model wraps a forward `Collections.LinkedListIterator` only.
- `Collections.ForCombinations`: the source accepts any iterator (utils.js:326-333). The model takes a forward `Collections.LinkedListIterator` only.
- `Collections.ForEach`: callbacks are pure functions, so a callback's side effects, including changes to the list during a traversal, are not modelled. Neither is `forEach`'s third callback argument, the list itself (utils.js:322). The same holds for `Collections.ForCombinations` and `Collections.ForPermutations`.
- `Collections.Dictionary`: inherited object properties (such as `constructor`) and the `dict || {}` treatment of other falsy arguments are not modelled. The backing object is a map.
- The shared length-changing closure of the iterators is the list's own length field.
- Datastore transactions, commit and rollback are not modelled. The outcome of the increment's transaction is the `Commit` input.
- `Random.nextInt` is the function parameter of `ShardedCounters.ShardedCounter.Increment`. Other exceptions caught at ShardedCounter.java:223-225 (datastore failures) are not modelled.
- `ShardedCounters.ShardedCounter.AddShards`: Java `int` overflow of the shard count is not modelled, and neither is `long` overflow of the shard counts and totals.
- `ShardedCounters.RunTask`: the datastore returns integer properties as `Long`. The entity read at ShardedCounter.java:350 therefore makes line 87 cache a `Long` tally, and the `(int)` cast at line 353 throws ClassCastException. `run` catches only EntityNotFoundException (line 358), so in the source the task fails there: no shard is added and the tally is not deleted. The cast at line 174, reached through `addShards`, fails the same way. The model assumes both casts succeed and reads the numbers.
- `ShardedCounters.ShardedCounter.GetShardCount`: after a cache miss, the entity fetched from the datastore holds `shard-count` as a `Long`, and the `(int)` cast at ShardedCounter.java:179 throws ClassCastException. A shard count cached from a stored entity (line 86) is a `Long` too, and the cast at line 174 throws on a cache hit. The model assumes the casts succeed. `ShardedCounters.ShardedCounter.AddShards` and `ShardedCounters.ShardedCounter.Increment` call it and inherit this.
- `Media.MediaImage.IsPortrait`, `Media.MediaImage.IsLandscape` and `Media.MediaImage.IsSquare`: on an image loaded from the datastore, `getImageShape` casts the stored `Long` shape with `(int)` (MediaImage.java:147) and throws ClassCastException. The model reads the shape as a number.
- Logging and the memcache and datastore service objects are not modelled. Expiry is the explicit step `ShardedCounters.Services.Evict`, and task handles are queue positions.
- `storeDatastore` and `fetchDatastore` appear only as their effect inside the operations that call them.
- The access-control list a new directory inherits or creates (MediaDirectory.java:138-158) is not modelled. Neither is key allocation: the new directory's key is an input.
- Persistence and the memcache copies of directory and image entities, `listChildren`, `delete` and `DirectoryCleanupTask` are not modelled.
- `Media.DirectoryFromKey`: memcache and the datastore are one map that holds every entity under its own key. A cached entity stored under another directory's id is not modelled.
- The image-creating `MediaImage` constructor is not modelled: it calls the images service and cloud storage.
- `getServingUrl` casts the stored serving URL to `Link` while the creating constructor stores a `String`. The model reads the URL as stored.
- The query-string regular expression (ServletUtils.java:6) is not modelled. The matched name and value pairs are an input.
- `KeyFactory.stringToKey` is a map from key strings to keys; an unknown string throws.
- Response headers and the servlet container are not modelled. A response is 404, an escaping exception, or the list of redirects.
- `ImageServing.ParseInt` accepts an optional `-` or `+` sign followed by ASCII digits only; Java's `parseInt` also accepts other Unicode digits.
- `ImageServing.ToUpper` maps ASCII letters only; `toUpperCase` also maps other letters.
- The page editor's DOM work is not modelled: elements, the drag shadow's icon and display, and `highlightForDropType` and `clearHighlight`, which only restyle drop targets. Of the drag shadow only whether it is set is kept: it is never assigned, so every handler that shows or hides it (editor.ts:17-18, 24-25, 31-32, 38-39, 64-65, 81) throws TypeError after its field writes.
- The table, accordion, text and other card buttons have empty handlers and change nothing. `TableComponent`, `Accordion` and `HeaderComponent` are incomplete in the source and are not modelled.
- `ContainerComponent.isContainer` names its parameter `copm` but reads `comp`. The model gives it its evident meaning.
- The `Editor.instance` singleton is the editor passed to `PageEditor.DropTargetClick`.
- `PageEditor/scripts/editor.js` is an older compiled snapshot of `editor.ts` and is not part of this model.

## Findings

| source | as written | input that shows it | evidently intended | confidence | as-written member | corrected member |
|---|---|---|---|---|---|---|
| SiteBuilder/src/com/utz/core/utils/ShardedCounter.java:204-205 | an existing shard is rewritten with `count++`, the value before the increment | any increment that picks an existing shard: its count, and so the total, stays the same | write `count + 1`, so every increment adds one to the total | high (not executed) | `ShardedCounters.WrittenCountGrowsOnlyNewShards` | `ShardedCounters.IntendedCountAddsOne` |
| SiteBuilder/src/com/utz/core/utils/ShardedCounter.java:108 | `counterByName` looks up kind `sharded-counter` under `sharded-counter-root`, but counters are stored as kind `shard-counter` under `shard-counter-root` (line 58) | `counterByName("hits", 4)` after `hits` was created with 10 shards: the lookup misses, and the counter is re-created with 4 shards. Whether that write can commit is unchecked: it puts an entity of group `shard-counter-root` in a transaction that already read group `sharded-counter-root`, which a single-group transaction refuses, and transactions are not modelled | look the counter up under the key the constructor stores it under, so an existing counter is returned unchanged | high (not executed) | `ShardedCounters.CounterByName` | `ShardedCounters.CounterByNameIntended` |
| SiteBuilder/src/com/utz/core/utils/ShardedCounter.java:351-353 | `run` builds the counter from its entity, which overwrites the cached tally with the stored `error-count` (always 0), before it reads the tally | 10 conflicts, then the task runs: it reads 0, not 10, and would add 2 shards, not 5. The defect is latent: the `(int)` cast of the stored `Long` tally at line 353 throws ClassCastException first, so `run` fails before `addShards` | read the tally before the counter is built | medium (not executed) | `ShardedCounters.RunTask` | `ShardedCounters.RunTaskIntended` |
| SiteBuilder/src/com/utz/core/utils/ShardedCounter.java:355 | `errors > 2 ? errors / 2 : 2` | a tally of 3 adds 1 shard, fewer than a tally of 2. The defect is latent behind lines 351-353: as written, `run` reads the overwritten stored tally 0, and the `(int)` cast at line 353 throws before line 355 runs | never add fewer than 2 shards: half the tally only above 4 | medium (not executed) | `ShardedCounters.GrowthDeltaDips` | `ShardedCounters.IntendedGrowthDeltaProperties` |
| SiteBuilder/src/com/utz/core/media/MediaDirectory.java:130 | the parent property holds the parent key's numeric id, while `getParentKey` (lines 190-192) casts it to `Key` | create a directory under a user, then a directory under that one: `supportsSubDirectories` throws ClassCastException | store the parent key itself | high (not executed) | `Media.CreateDirectory` | `Media.CreateDirectoryIntended` |
| SiteBuilder/src/com/utz/server/media/ImageServlet.java:171 | after the sized redirect, a second `sendRedirect` to the plain URL always follows | any request for a stored image with a known class: two redirects, and the servlet API refuses the second once the response is committed. The defect is latent: `getServingUrl` casts the `String` stored at MediaImage.java:64 to `Link` (MediaImage.java:118), so line 91 throws ClassCastException before line 171 runs | redirect once, to the sized URL | high (not executed) | `ImageServing.RespondRedirectsTwice` | `ImageServing.RespondIntendedRedirectsOnce` |
| PageEditor/scripts/editor.ts:198-199 | `endDrag()` clears `draggingComponent` before `addChild(edit.draggingComponent, …)` reads it. The defect is latent: `endDrag` itself throws first on the never-assigned drag shadow (editor.ts:7, 81) | drag a row and click a drop target in a parallax: `endDrag` throws and nothing is added. Once the shadow is initialised, null is appended to the parallax's children and `child.element` throws TypeError | take the dragged component before ending the drag, and append it | medium (not executed) | `PageEditor.DropTargetClick` | `PageEditor.DropTargetClickIntended` |
