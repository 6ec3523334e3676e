# persistent: a verified model of ZODB's object-lifecycle and LRU-cache layer

This project models the core of the ZODB `persistent` package in Dafny:
the LRU ring that orders a cache's live objects, the activation state
machine of a persistent object, the pickle cache with its eviction sweep,
and the integer encoding of `TimeStamp`. Each piece is modelled in every
implementation the package ships: the pure-Python one, its C twin, and the
older pure-Python snapshot under `persistent/`, which keeps its own
modules and is not merged with the current one.

| file | module | models |
|---|---|---|
| `common.dfy` | `Common` | optional values and results, the Python and C error kinds, bytes, oids and jars |
| `arith.dfy` | `Arith` | the integer facts the encodings rest on: Euclidean division, fixed-width wrap-around, exclusive or |
| `ring.dfy` | `PyRing` | `_DequeRing` (a deque of objects and a set of their oids) and `_CFFIRing` (one linked node per object) of `src/persistent/ring.py` |
| `linked_ring.dfy` | `LinkedRing` | the sentinel-headed doubly linked ring of `CPersistentRing` nodes, with `insert_after`, `unlink_from_ring` and the `ring_add`, `ring_del` and `ring_move_to_head` splices built from them |
| `legacy_ring.dfy` | `LegacyRing` | the two rings of the older `persistent/ring.py` |
| `persistence.dfy` | `Persistence` | the pure-Python `Persistent`: its properties, `_p_state` and `_p_status`, activation, deactivation, invalidation and dirty-marking |
| `legacy_persistence.dfy` | `LegacyPersistence` | what the older `Persistent` does differently |
| `cpersistence.dfy` | `CPersistence` | the C `Persistent` type: `unghostify`, `ghostify`, `changed`, `accessed`, the `_p_` methods, attribute hooks and setters, and the cache head it keeps its books in |
| `picklecache.dfy` | `PickleCache` | the pure-Python `PickleCache` over the node ring, including `_sweep` |
| `legacy_picklecache.dfy` | `LegacyPickleCache` | the older `PickleCache` over the deque ring, whose sweep collects first and ejects with `delete_all` |
| `cpicklecache.dfy` | `CPickleCache` | the C cache: `data`, `klass_count`, the ring lock, and `scan_gc_items` with its marker and placeholder |
| `timestamp.dfy` | `PyTimeStamp` | the pure-Python `TimeStamp`: the two 32-bit words, comparison, `laterThan` and the hash |
| `ctimestamp.dfy` | `CTimeStamp` | the C `TimeStamp`: packing, the calendar tables, `FromDate`'s range checks, `laterThan` with carry and rollover, comparison and the hash |

How the model is built:

- **Rings.** Each ring is a class whose state is a sequence of objects
  from least to most recently used, or linked nodes refined to such a
  sequence. Each operation states the new sequence.
- **Objects.** Each object transition is a pure function from a snapshot
  of the object's slots to a step: the new snapshot, the calls made on the
  jar and the cache, and the outcome. The class's methods change the
  fields one at a time and are proved to perform exactly that step.
  - The jar's `setstate` and `register` may fail. They are parameters:
    `Load` is what `setstate` does, including flags it scribbles, and
    `registerOk` says whether `register` succeeds.
  - What the jar's `_cache` holds under the object's oid is also a
    parameter.
- **Caches.** Each cache is a class holding its tables, ring and counters.
  - Each sweep is specified by a pure function over a snapshot of the ring
    (`SweepFrom`, `ScanFrom`). The method that walks the ring is proved to
    leave the cache exactly as that function says.
  - The lemmas about those functions are the sweep's promises: oldest
    first, only ejectable objects, exact counts.
- **Time stamps.** These are values: the raw eight bytes and the functions
  over them.

Divergences between the implementations, kept as the code has them:

- **Python `__delitem__`.** It never lowers `non_ghost_count`, while
  `cc_del_item` does.
- **Python `reify`.** It counts an activated ghost once itself and once
  more in `mru`, so "the count is the ring's length" holds only for the
  operations that say so.
- **C size updates.** `cc_update_object_size_estimation` changes the byte
  total only for an object linked in the ring. The Python caches change it
  for any stored object.
- **Duplicate oid in `new_ghost`.** Python raises `KeyError`; C raises
  `ValueError`.
- **Python `laterThan`.** It adds one to the low word with no carry. C
  carries across the four low bytes and, when all four wrap, advances the
  minute with day, month and year rollover.
- **The legacy sweep.**
  - Target 0 is itself a budget: with no byte budget, the sweep stops
    once the count reaches 0; with a byte budget that is exceeded, it goes
    on at count 0.
  - Nothing in the legacy code sets `_persistent_deactivate_ran`, so only
    an object whose class is not one of `_SWEEPABLE_TYPES` is ever removed
    from the ring.
- **Legacy `new_ghost`.** The legacy `Persistent` has no
  `_p_invalidate_deactivate_helper`. A fresh instance therefore receives
  its oid and jar and then fails with `AttributeError` before it is
  stored.
- **Legacy `_p_activate`.** It keeps whatever flags `setstate` left. The
  current version resets them to 0.
- **C `cc_add_item`.** An object already in this cache under another key
  makes the C code return failure without setting an exception. The model
  calls this failure `SystemError`.

## Model

| member | source | states |
|---|---|---|
| PyRing.DequeRing.constructor | src/persistent/ring.py:98-103 | a new deque ring is empty, holds no oids and is valid |
| PyRing.DequeRing.Len | src/persistent/ring.py:105-106 | the length equals the number of oids held, one per object in the deque |
| PyRing.DequeRing.ContainsByOid | src/persistent/ring.py:108-109 | membership is by `_p_oid`: true iff some object in the deque has the same oid, and every object in the deque is contained |
| PyRing.DequeRing.Add | src/persistent/ring.py:111-113 | appends at the MRU end, records the oid, and raises the length by exactly 1 |
| PyRing.DequeRing.Delete | src/persistent/ring.py:115-124 | returns true iff the object (by identity) was in the deque; then exactly that position is removed, its oid is discarded and the length drops by 1; otherwise nothing changes |
| PyRing.DequeRing.MoveToHead | src/persistent/ring.py:126-128 | the object moves to the MRU end; every other object keeps its relative order and the oid set is unchanged |
| PyRing.DequeRing.DeleteAll | src/persistent/ring.py:130-133 | the deque and oid set end as the reverse-order index deletion `DeleteAllSpec` prescribes, including the IndexError case |
| PyRing.DeleteAllSpec | src/persistent/ring.py:130-133 | deleting (index, value) pairs from the last to the first never grows the ring, and its only error is IndexError |
| PyRing.DeleteAllRemovesIndexes | src/persistent/ring.py:130-133 | when the indexes increase and lie inside the ring, every index refers to the ring before any removal: the result keeps exactly the other positions and drops exactly the listed oids |
| PyRing.DistinctOidsCount | src/persistent/ring.py:105-109 | with distinct oids, the oid set has one element per object, so `len` counts objects |
| PyRing.CffiRing.constructor | src/persistent/ring.py:182-198 | a new CFFI ring has no objects, an empty node map and a fresh sentinel-headed link structure |
| PyRing.CffiRing.RingNodeFor | src/persistent/ring.py:200-219 | an existing node is returned unchanged; with `create` a fresh node is made and stored on the object; without it nothing is created |
| PyRing.CffiRing.Len | src/persistent/ring.py:221-222 | the length is the number of objects linked in the ring |
| PyRing.CffiRing.ContainsByNode | src/persistent/ring.py:224-226 | membership is by the object's ring node: true iff some linked object has that node |
| PyRing.CffiRing.HeldAtSlot | src/persistent/ring.py:224-226 | a linked object's node is in `ring_to_obj` and sits at the object's position in the link order |
| PyRing.CffiRing.ObjsDistinct | src/persistent/ring.py:49-58 | the objects of the ring are distinct |
| PyRing.CffiRing.Add | src/persistent/ring.py:228-231 | appends the object at the MRU end and raises the length by 1 |
| PyRing.CffiRing.Delete | src/persistent/ring.py:233-241 | returns true iff the object's node was linked; then exactly that position is removed and the object is no longer contained; an absent object changes nothing |
| PyRing.CffiRing.DeleteNode | src/persistent/ring.py:243-246 | an unknown node fails with KeyError and changes nothing; a known node is unlinked and popped from `ring_to_obj` |
| PyRing.CffiRing.PopAndUnlink | src/persistent/ring.py:243-246 | popping a mapped node removes its position from both the object order and the link order |
| PyRing.CffiRing.MoveToHead | src/persistent/ring.py:248-250 | the object moves to the MRU end; the others keep their order and the node map is unchanged |
| PyRing.CffiRing.IterStart | src/persistent/ring.py:252-264 | the cursor starts at the LRU node, and at the sentinel iff the ring is empty |
| PyRing.CffiRing.IterNext | src/persistent/ring.py:252-264 | yields the node and object at the cursor's position and fetches the following node before yielding |
| PyRing.CffiRing.IterItems | src/persistent/ring.py:252-264 | yields every (node, object) pair from LRU to MRU, one per position |
| LinkedRing.InsertLinks | src/persistent/cPickleCache.c:177-186 | splicing x after the k-th node keeps a circular ring whose next and prev links agree with the order with x inserted |
| LinkedRing.RemoveLinks | src/persistent/cPickleCache.c:189-195 | unlinking a non-sentinel node by joining its neighbours keeps a circular ring whose links agree with the order without it |
| LinkedRing.Ring.constructor | src/persistent/cPickleCache.c:882-922 | a ring whose home sentinel points to itself holds no nodes |
| LinkedRing.Ring.LinkedIsListed | src/persistent/cPickleCache.c:177-195 | a node has links iff it is the sentinel or in the ring's order |
| LinkedRing.Ring.CycleIsHomeThenOrder | src/persistent/cPickleCache.c:177-195 | walking the cycle from home gives home followed by the LRU-to-MRU order |
| LinkedRing.Ring.OrderDistinct | src/persistent/cPickleCache.c:177-195 | the ring holds each node at most once, and never the sentinel |
| LinkedRing.Ring.NextOf | src/persistent/cPickleCache.c:177-195 | each node's `r_next` is its successor around the cycle |
| LinkedRing.Ring.InsertAfter | src/persistent/cPickleCache.c:177-186 | `insert_after(x, a)` makes `a.next == x`, `x.prev == a`, `x.next` the old `a.next`, and inserts x after a in the cycle |
| LinkedRing.Ring.Unlink | src/persistent/cPickleCache.c:189-195 | `unlink_from_ring` removes exactly x from the cycle and the ring stays valid |
| LinkedRing.Ring.Add | src/persistent/cPersistence.c:119 | `ring_add` appends the node just before home, at the MRU end |
| LinkedRing.Ring.Del | src/persistent/cPersistence.c:196 | `ring_del` removes exactly that node from the order |
| LinkedRing.Ring.MoveToHead | src/persistent/cPersistence.c:161 | `ring_move_to_head` moves the node to the MRU end, keeping the others in order |
| LegacyRing.DequeRing.constructor | persistent/ring.py:95-98 | a new legacy deque ring is empty |
| LegacyRing.DequeRing.Len | persistent/ring.py:100-101 | the length is the number of oids recorded |
| LegacyRing.DequeRing.ContainsByOid | persistent/ring.py:103-104 | membership is by the oid set: true iff some object in the deque has the same oid |
| LegacyRing.DequeRing.Add | persistent/ring.py:106-108 | appends the object, records its oid and raises the length by 1 |
| LegacyRing.DequeRing.Delete | persistent/ring.py:110-121 | the scan finds the first identical object, removes that position and its oid and reports it; an absent object changes nothing |
| LegacyRing.DequeRing.MoveToHead | persistent/ring.py:123-125 | delete then add: the object ends at the MRU end with the others in order |
| LegacyRing.DequeRing.DeleteAll | persistent/ring.py:127-130 | deletes by index in reverse order and discards each oid, exactly as the current deque ring's specification says |
| LegacyRing.CffiRing.constructor | persistent/ring.py:40-45 | a new legacy CFFI ring has no nodes and an empty node map |
| LegacyRing.CffiRing.ContainsIsLinked | persistent/ring.py:50-51 | membership is by the object's node being a key of `ring_to_obj`, which holds exactly the linked nodes |
| LegacyRing.CffiRing.Mapped | persistent/ring.py:50-51 | a node is in `ring_to_obj` iff it is linked in the ring |
| LegacyRing.CffiRing.Add | persistent/ring.py:53-57 | every add creates a fresh node, links it at the MRU end and maps it to the object |
| LegacyRing.CffiRing.Delete | persistent/ring.py:59-63 | a missing or unlinked node is tolerated and changes nothing; a linked one is unlinked and unmapped |
| LegacyRing.CffiRing.MoveToHead | persistent/ring.py:65-67 | an object without a node fails with AttributeError; otherwise its node moves to the MRU end |
| LegacyRing.CffiRing.DeleteAll | persistent/ring.py:69-71 | every listed object's node is unlinked and unmapped, and none of them is contained afterwards |
| Persistence.EstimatedSizeIn24Bits | src/persistent/persistence.py:628-636 | the result never exceeds 2^24-1; above 1073741696 bytes it saturates; otherwise it is the number of whole 64-byte units plus one, so `(r-1)*64 <= v < r*64`; deactivation's -1 maps to 0 |
| Persistence.EstimatedSizeMonotone | src/persistent/persistence.py:628-636 | a larger byte count never gives fewer units |
| Persistence.EstimatedSizeRoundsUp | src/persistent/persistence.py:232-241 | the size read back (units times 64) lies strictly above the value set and at most 64 bytes above it, e.g. 123 reads back as 128 |
| Persistence.Hex | src/persistent/persistence.py:72-85 | `'%x'` formatting yields at least one digit |
| Persistence.HexRoundTrip | src/persistent/persistence.py:72-85 | reading the hexadecimal digits back gives the number formatted |
| Persistence.HexLengthOfBytes | src/persistent/persistence.py:72-85 | a number of b big-endian bytes needs at most 2b hexadecimal digits |
| Persistence.OidRepr | src/persistent/persistence.py:72-85 | unpacking with `'>Q'` fails with struct.error exactly when the oid is not 8 bytes |
| Persistence.OidReprRoundTrip | src/persistent/persistence.py:72-85 | for an 8-byte oid the text is 1 to 16 hex digits, with no `0x`, whose value is the oid read big-endian; a `0` is prepended only to an odd length below 8, so 1, 3, 5 and 7 digits never occur while 9, 11, 13 and 15 can |
| Persistence.State | src/persistent/persistence.py:212-229 | `_p_state` is GHOST iff there is a jar and the flags are None, STICKY iff there is a jar and the STICKY bit is set (even if CHANGED is set too), CHANGED iff a jar and CHANGED without STICKY, and UPTODATE otherwise |
| Persistence.StatusAgreesWithState | src/persistent/persistence.py:270-282 | `_p_status` (unsaved, ghost, sticky, changed, saved, checked in that order) corresponds one to one with `_p_state`; unsaved and saved both read as UPTODATE |
| Persistence.GetChanged | src/persistent/persistence.py:176-182 | `_p_changed` is None exactly for a ghost, and true exactly when the CHANGED bit is set on a non-ghost with a jar |
| Persistence.GetSerial | src/persistent/persistence.py:157-161 | an unset serial reads as eight zero bytes; otherwise the stored bytes |
| Persistence.SetJarStep | src/persistent/persistence.py:105-114 | ValueError exactly when the object has a jar, a non-empty oid and is that jar's cache entry, and a different non-None jar is given; a new jar sets flags to 0; re-assigning the same jar changes nothing |
| Persistence.DelJarStep | src/persistent/persistence.py:116-124 | ValueError exactly when a jar is set and the object is its cache's entry; otherwise the jar and flags are cleared |
| Persistence.SetOidStep | src/persistent/persistence.py:130-144 | ValueError exactly when a different oid is assigned while the object has a jar and a non-empty oid and is that jar's cache entry; otherwise the oid is stored |
| Persistence.JarlessNeverRefused | src/persistent/persistence.py:577-586 | `_p_is_in_cache` finds no cache without a jar, so a jar-less object is never refused a jar or an oid |
| Persistence.DelOidStep | src/persistent/persistence.py:146-154 | deleting is refused (ValueError, or AttributeError when the jar has no cache) exactly when jar and oid are set and the cache holds something under the oid |
| Persistence.SetSerialStep | src/persistent/persistence.py:163-168 | accepted and read back exactly when the value is bytes of length 8; anything else raises ValueError and changes nothing |
| Persistence.SetEstimatedSizeStep | src/persistent/persistence.py:235-241 | a non-int raises TypeError and a negative int ValueError; otherwise the size is stored in 24-bit units, 1 to 2^24-1, reading back within 64 bytes above the value |
| Persistence.SetStickyStep | src/persistent/persistence.py:257-266 | a ghost raises ValueError; otherwise only the STICKY bit changes and reads back as the value given |
| Persistence.ActivateStep | src/persistent/persistence.py:390-422 | only a ghost acts; without jar or oid the flags become 0; otherwise `setstate` sees CHANGED, success ends at exactly 0 whatever `setstate` left, failure restores the ghost, and nothing is ever registered |
| Persistence.HelperStep | src/persistent/persistence.py:444-484 | with a jar the object becomes a ghost, its dictionary cleared when asked, and a jar with a cache is told the size (-1) and that the base deactivate ran |
| Persistence.DeactivateStep | src/persistent/persistence.py:429-434 | ghosts exactly an object whose flags are 0 and that has a jar, clearing its state and reporting to the cache iff the jar has one; all else is unchanged |
| Persistence.InvalidateStep | src/persistent/persistence.py:436-442 | with a jar, even a changed or sticky object ends as a ghost with sticky cleared; without one the flags end at 0 |
| Persistence.DeactivateIdempotent | src/persistent/persistence.py:429-434 | deactivating twice does nothing the second time |
| Persistence.SetChangedFlagStep | src/persistent/persistence.py:523-538 | a ghost raises TypeError; an already-changed object is left alone; the clean-to-dirty step registers first, and a failing register leaves the flags unchanged; false clears the bit |
| Persistence.RegisterOnlyOnTransition | src/persistent/persistence.py:523-538 | `register` is called iff the value is true and a non-ghost with jar and oid was not already changed |
| Persistence.SetChangedStep | src/persistent/persistence.py:184-193 | on a ghost only a truthy value acts (load, then register); None runs the class's `_p_deactivate` on a non-ghost, so it is ignored when changed or sticky, and always when the class overrides the method without calling the base; a falsy value clears CHANGED; a failed load registers nothing |
| Persistence.AccessedCalls | src/persistent/persistence.py:540-575 | the cache's `mru(oid)` is called iff the object is a non-ghost with jar and oid and the jar has a cache |
| Persistence.GetAttributeStep | src/persistent/persistence.py:285-294 | special names never activate; any other name leaves the object active and marks it accessed; no read ever registers |
| Persistence.MarkWrittenStep | src/persistent/persistence.py:296-314 | after a store the CHANGED bit is set and `register` called iff jar and oid are set, the name is ordinary and not `_v_`, and the object was not already changed |
| Persistence.SetAttributeStep | src/persistent/persistence.py:296-314 | a special name is stored with nothing else; a successful store holds the value; a `_v_` name never registers; a register leaves the object not UPTODATE |
| Persistence.MarkDeletedStep | src/persistent/persistence.py:316-330 | before a deletion CHANGED is set even without a jar; `register` runs iff the object was clean and has jar and oid |
| Persistence.DelEntryStep | src/persistent/persistence.py:316-330 | deleting a missing name raises AttributeError and changes nothing; otherwise only that name goes |
| Persistence.DelAttributeStep | src/persistent/persistence.py:316-330 | a special name is only deleted; an ordinary one is loaded, deleted and leaves the object changed |
| Persistence.DispatchDeactivateStep | src/persistent/persistence.py:429-434 | the base `_p_deactivate` performs the deactivation; an override that skips it changes nothing |
| Persistence.DispatchInvalidateStep | src/persistent/persistence.py:436-442 | the base deactivate makes invalidation ghost the object; with an override that skips it the flags are merely forced to 0 |
| Persistence.Persistent.constructor | src/persistent/persistence.py:87-99 | a new object has every slot None and size 0, so its status is unsaved |
| Persistence.Persistent.SetJar | src/persistent/persistence.py:105-114 | updates the slots exactly as `SetJarStep` |
| Persistence.Persistent.DelJar | src/persistent/persistence.py:116-124 | updates the slots exactly as `DelJarStep` |
| Persistence.Persistent.SetOid | src/persistent/persistence.py:130-144 | updates the oid exactly as `SetOidStep` |
| Persistence.Persistent.DelOid | src/persistent/persistence.py:146-154 | updates the oid exactly as `DelOidStep` |
| Persistence.Persistent.SetSerial | src/persistent/persistence.py:163-168 | updates the serial exactly as `SetSerialStep` |
| Persistence.Persistent.DelSerial | src/persistent/persistence.py:170-173 | the serial is cleared and reads back as eight zero bytes |
| Persistence.Persistent.SetEstimatedSize | src/persistent/persistence.py:235-241 | updates the size exactly as `SetEstimatedSizeStep` |
| Persistence.Persistent.DelEstimatedSize | src/persistent/persistence.py:243-247 | the size is reset and reads back as 0 |
| Persistence.Persistent.SetSticky | src/persistent/persistence.py:257-266 | updates the flags exactly as `SetStickyStep` |
| Persistence.Persistent.Activate | src/persistent/persistence.py:390-422 | the try/except around `setstate` performs exactly `ActivateStep` |
| Persistence.Persistent.InvalidateDeactivateHelper | src/persistent/persistence.py:444-484 | performs exactly `HelperStep` |
| Persistence.Persistent.Deactivate | src/persistent/persistence.py:429-434 | performs exactly `DeactivateStep` |
| Persistence.Persistent.Invalidate | src/persistent/persistence.py:436-442 | performs exactly `InvalidateStep` |
| Persistence.Persistent.DispatchDeactivate | src/persistent/persistence.py:429-434 | performs the class's `_p_deactivate` as `DispatchDeactivateStep` says |
| Persistence.Persistent.DispatchInvalidate | src/persistent/persistence.py:436-442 | performs the class's `_p_invalidate` as `DispatchInvalidateStep` says |
| Persistence.Persistent.SetChangedFlag | src/persistent/persistence.py:528-538 | performs exactly `SetChangedFlagStep` |
| Persistence.Persistent.SetChanged | src/persistent/persistence.py:184-193 | performs exactly `SetChangedStep` for the object's own class, dispatching `_p_deactivate` through it |
| Persistence.Persistent.DelChanged | src/persistent/persistence.py:195-196 | deleting `_p_changed` is the class's `_p_invalidate`: the flags are forced to 0 and `_p_deactivate` is dispatched, so the base method ghosts the object and an override that skips it leaves it up to date with its state |
| Persistence.Persistent.Accessed | src/persistent/persistence.py:540-575 | makes exactly the calls `AccessedCalls` gives and changes nothing |
| Persistence.Persistent.GetAttribute | src/persistent/persistence.py:285-294 | performs exactly `GetAttributeStep` |
| Persistence.Persistent.MarkWritten | src/persistent/persistence.py:307-314 | performs exactly `MarkWrittenStep` |
| Persistence.Persistent.SetAttribute | src/persistent/persistence.py:296-314 | performs exactly `SetAttributeStep` |
| Persistence.Persistent.MarkDeleted | src/persistent/persistence.py:320-329 | performs exactly `MarkDeletedStep` |
| Persistence.Persistent.DelEntry | src/persistent/persistence.py:330 | performs exactly `DelEntryStep` |
| Persistence.Persistent.DelAttribute | src/persistent/persistence.py:316-330 | performs exactly `DelAttributeStep` |
| LegacyPersistence.SetJarStep | persistent/persistence.py:71-77 | once a jar is set, a different one raises ValueError ('Already assigned a data manager') and changes nothing; a jar-less object takes the jar with flags 0; the same jar changes nothing |
| LegacyPersistence.SetJarComparedWithCurrent | persistent/persistence.py:71-77 | the legacy setter refuses whenever the current one does for a set jar, also refuses a change outside any cache, and gives a jar-less object its first jar exactly as the current one does |
| LegacyPersistence.DelJarStep | persistent/persistence.py:79-88 | refused (ValueError, or AttributeError without a cache) exactly when jar and a non-empty oid are set and the cache holds something under the oid; otherwise jar and flags are cleared |
| LegacyPersistence.SetOidStep | persistent/persistence.py:94-102 | a value that is not None or an oid raises ValueError, as does a change once jar and oid are both set; an equal oid changes nothing |
| LegacyPersistence.SetOidThenGet | persistent/persistence.py:94-102 | an accepted assignment was of None or an oid, and reading back gives that value |
| LegacyPersistence.ActivateStep | persistent/persistence.py:329-340 | only a ghost acts; flags are set to 0 before `setstate`, which runs only with jar and oid; on failure the ghost flags are restored; success keeps whatever flags `setstate` left |
| LegacyPersistence.ActivateKeepsLoadedFlags | persistent/persistence.py:329-340 | after a successful load the legacy object keeps the flags `setstate` left, where the current version forces them to 0 |
| LegacyPersistence.InvalidateStep | persistent/persistence.py:348-356 | with a jar the object becomes a ghost with its state cleared, whatever its flags; without one nothing changes |
| LegacyPersistence.DeactivateStep | persistent/persistence.py:342-346 | ghosts exactly an object with flags 0 and a jar; all else is unchanged |
| LegacyPersistence.InvalidateGhostsEvenChanged | persistent/persistence.py:342-356 | a changed or sticky object with a jar survives `_p_deactivate` but `_p_invalidate` ghosts it, with the same object state as the current version |
| LegacyPersistence.DeactivateIdempotent | persistent/persistence.py:342-346 | deactivating twice changes nothing the second time |
| LegacyPersistence.SetChangedStep | persistent/persistence.py:140-149 | on a ghost only a truthy value acts; None deactivates; other values go to `_p_set_changed_flag`; a ghost loaded clean and then failing to register stays at flags 0 |
| LegacyPersistence.RegisterBeforeChanged | persistent/persistence.py:393-401 | registering precedes setting CHANGED and happens only on the transition: an already-changed object is untouched and a failing register leaves the state unchanged |
| LegacyPersistence.AccessedStep | persistent/persistence.py:403-420 | a non-ghost with jar and oid calls the cache's `mru`; when the jar has no `_cache` that raises AttributeError; otherwise nothing is called |
| LegacyPersistence.GetAttributeStep | persistent/persistence.py:229-238 | special names never activate; other names on an active object only mark it accessed; no read registers |
| LegacyPersistence.MarkWrittenStep | persistent/persistence.py:249-258 | CHANGED is set and `register` called iff jar and oid are set, the name is ordinary and not `_v_`, and the object was not already changed |
| LegacyPersistence.SetAttributeStep | persistent/persistence.py:240-258 | a special name is only stored; a successful store holds the value; `_v_` names never register |
| LegacyPersistence.MarkDeletedStep | persistent/persistence.py:260-274 | a deletion leaves CHANGED set; `register` runs iff the access succeeded and a clean object has jar and oid |
| LegacyPersistence.DelEntryStep | persistent/persistence.py:274 | deleting a missing name raises AttributeError; otherwise only that name goes |
| LegacyPersistence.DelAttributeStep | persistent/persistence.py:260-274 | a special name is only deleted; an ordinary one is loaded, deleted and leaves the object changed |
| LegacyPersistence.Persistent.constructor | persistent/persistence.py:54-65 | a new object has every slot None and is unsaved |
| LegacyPersistence.Persistent.SetJar | persistent/persistence.py:71-77 | updates the slots exactly as `SetJarStep` |
| LegacyPersistence.Persistent.DelJar | persistent/persistence.py:79-88 | updates the slots exactly as `DelJarStep` |
| LegacyPersistence.Persistent.SetOid | persistent/persistence.py:94-102 | updates the oid exactly as `SetOidStep` |
| LegacyPersistence.Persistent.Activate | persistent/persistence.py:329-340 | performs exactly `ActivateStep` |
| LegacyPersistence.Persistent.Invalidate | persistent/persistence.py:348-356 | performs exactly `InvalidateStep` |
| LegacyPersistence.Persistent.Deactivate | persistent/persistence.py:342-346 | performs exactly `DeactivateStep` |
| LegacyPersistence.Persistent.MarkChanged | persistent/persistence.py:393-401 | performs the same flag transition as the current `_p_set_changed_flag` |
| LegacyPersistence.Persistent.SetChanged | persistent/persistence.py:140-149 | performs exactly `SetChangedStep` |
| LegacyPersistence.Persistent.Accessed | persistent/persistence.py:403-420 | makes exactly the calls of `AccessedStep` and changes nothing |
| LegacyPersistence.Persistent.GetAttribute | persistent/persistence.py:229-238 | performs exactly `GetAttributeStep` |
| LegacyPersistence.Persistent.SetAttribute | persistent/persistence.py:240-258 | performs exactly `SetAttributeStep` |
| LegacyPersistence.Persistent.MarkDeleted | persistent/persistence.py:263-273 | performs exactly `MarkDeletedStep` |
| LegacyPersistence.Persistent.DelAttribute | persistent/persistence.py:260-274 | performs exactly `DelAttributeStep` |
| CPersistence.StateCode | src/persistent/cPersistence.c:1302-1306 | `_p_state` is one of -1, 0, 1, 2, and negative exactly for a ghost |
| CPersistence.StatusAgreesWithPython | src/persistent/cPersistence.c:1342-1374 | for an object with a jar, the C state and status read the same as the Python flags they correspond to |
| CPersistence.RemovedCounted | src/persistent/cPersistence.c:186-196 | taking a node off a counted ring keeps it counted, and removes that node and no other |
| CPersistence.AppendedCounted | src/persistent/cPersistence.c:115-119 | adding a node that is not on the ring keeps it counted |
| CPersistence.RemoveAppended | src/persistent/cPersistence.c:105-150 | removing the node just added restores the cache head, which is what the failure path of `unghostify` relies on |
| CPersistence.MovedCounted | src/persistent/cPersistence.c:156-162 | moving a node to the head keeps the ring counted with the same nodes |
| CPersistence.GhostifyStep | src/persistent/cPersistence.c:164-268 | `ghostify` never changes jar, oid, serial, size or the `cache` field; its effect on the ring is stated by `GhostifyBooks` |
| CPersistence.GhostifyBooks | src/persistent/cPersistence.c:164-268 | a ghost or an uncached object leaves the head unchanged; otherwise the count drops by 1, the byte total by the object's size and exactly its node leaves the ring; the result is a ghost |
| CPersistence.UnghostifyStep | src/persistent/cPersistence.c:105-150 | `unghostify` never changes jar, oid, serial, size or the `cache` field; its effects are stated by the lemmas below |
| CPersistence.UnghostifyLoads | src/persistent/cPersistence.c:105-150 | a ghost with a jar holds CHANGED during `setstate`; on success it ends UPTODATE with the loaded state, and a cached one is linked with the count and byte total raised |
| CPersistence.UnghostifyFailureRestores | src/persistent/cPersistence.c:105-150 | when `setstate` fails, `ghostify` undoes the ring and counter changes and the result is an error |
| CPersistence.UnghostifyKeepsSound | src/persistent/cPersistence.c:105-150 | a non-ghost or an object without a jar is left alone, success leaves an object with a jar loaded, and the head stays coherent with the object |
| CPersistence.AccessedStep | src/persistent/cPersistence.c:156-162 | `accessed` changes only the ring, never the object |
| CPersistence.ChangedStep | src/persistent/cPersistence.c:270-304 | `changed` never touches the cache head |
| CPersistence.ChangedRegisters | src/persistent/cPersistence.c:270-304 | `jar.register` is called iff the state is UPTODATE or STICKY and there is a jar; CHANGED is set only after it succeeds, and a failure leaves the object as it was |
| CPersistence.DeactivateStep | src/persistent/cPersistence.c:329-350 | the base `_p_deactivate` makes no calls and always succeeds |
| CPersistence.DeactivateGhostsUpToDate | src/persistent/cPersistence.c:329-350 | it changes the state exactly of an UPTODATE object with a jar, which becomes a ghost with its dictionary dropped; anything else is unchanged |
| CPersistence.DispatchDeactivateStep | src/persistent/cPersistence.c:329-350 | the `_p_deactivate` looked up by name makes no jar calls |
| CPersistence.DispatchKeepsSound | src/persistent/cPersistence.c:329-350 | whichever `_p_deactivate` runs, the object either keeps its state or becomes a ghost, and stays coherent with the head |
| CPersistence.InvalidateEndsGhost | src/persistent/cPersistence.c:364-379 | `_p_invalidate` always ends GHOST with jar and oid kept; for a cached object exactly its node leaves the ring |
| CPersistence.InvalidateUnlinks | src/persistent/cPersistence.c:364-379 | for a cached object the ring afterwards is the old ring with the object's position removed, when it was there |
| CPersistence.SetChangedDeactivates | src/persistent/cPersistence.c:1090-1158 | deleting `_p_changed` or assigning None takes the deactivate path without calls; deletion first forces UPTODATE so a non-ghost with a jar ends a ghost; None on a CHANGED object does nothing |
| CPersistence.SetChangedFlag | src/persistent/cPersistence.c:1090-1158 | a falsy non-None value makes a non-ghost UPTODATE and leaves a ghost alone; a truthy value on a non-ghost is `changed()` |
| CPersistence.SetChangedLoadsThenRegisters | src/persistent/cPersistence.c:1090-1158 | a truthy value on a ghost with a jar loads it and then registers it, ending CHANGED |
| CPersistence.LoadAndTouchKeepsSound | src/persistent/cPersistence.c:920-943 | loading then `accessed` gives the loaded object, never registers and keeps the head coherent |
| CPersistence.UnghostGetattrNames | src/persistent/cPersistence.c:882-918 | no load exactly for names starting `_p_` and for `__class__`, `__del__`, `__dict__`, `__of__` and `__setstate__`; every other name loads |
| CPersistence.PrepareWriteMarks | src/persistent/cPersistence.c:981-1010 | before a store of an ordinary name the object is loaded and moved to the head, and `changed()` runs unless the name is `_v_`, leaving an object with a jar CHANGED |
| CPersistence.SetAttrMarks | src/persistent/cPersistence.c:981-1010 | a successful store holds the value, a `_v_` name never registers, an ordinary name leaves an object with a jar CHANGED, and a register error aborts the store |
| CPersistence.SettersGuardCachedIds | src/persistent/cPersistence.c:1168-1232 | with a cache attached, deleting `_p_oid`/`_p_jar` or assigning an unequal value raises ValueError, and equal values change nothing; without one the oid is stored |
| CPersistence.SerialAndSticky | src/persistent/cPersistence.c:1240-1257 | `_p_serial` must be exactly 8 bytes and reads back as stored, and deleting it zeroes it; `_p_sticky` raises on a ghost and changes the state only with a jar |
| CPersistence.EstimatedSizeStored | src/persistent/cPersistence.c:1314-1340 | a non-int raises TypeError; an int raises ValueError exactly when it is negative or too large for a C `long` (which `INT_AS_LONG` reads as -1), and is otherwise stored; a stored size up to the 24-bit cap reads back at most 64 bytes above it; deleting reads back 0 |
| CPersistence.SetStickyLoadedEnds | src/persistent/cPersistence.c:1655-1662 | `Per_setstate` leaves a loaded object STICKY, and a failed load leaves a ghost with the head unchanged |
| CPersistence.CacheHead.constructor | src/persistent/cPickleCache.c:882-922 | a new cache head has both counters at 0 and an empty ring |
| CPersistence.CacheHead.LinkedIsOrdered | src/persistent/cPersistence.c:156-162 | a node's `r_next` is set exactly when it is in the ring |
| CPersistence.CacheHead.Link | src/persistent/cPersistence.c:115-119 | raises the count by 1 and the total by the object's bytes, and adds the node at the MRU end |
| CPersistence.CacheHead.Unlink | src/persistent/cPersistence.c:186-196 | lowers the count by 1 and the total by the object's bytes, and removes exactly that node |
| CPersistence.CacheHead.Admit | src/persistent/cPickleCache.c:1180-1186 | raises the count by 1 and adds the node at the MRU end, leaving the byte total unchanged |
| CPersistence.CacheHead.Dismiss | src/persistent/cPickleCache.c:1213-1216 | lowers the count by 1 and removes the node, leaving the byte total unchanged |
| CPersistence.CacheHead.Touch | src/persistent/cPersistence.c:161 | moves the node to the MRU end |
| CPersistence.CPersistent.constructor | src/persistent/cPersistence.c:1664-1674 | a new object has zeroed fields: UPTODATE, no jar, oid or cache, so status unsaved |
| CPersistence.CPersistent.Ghostify | src/persistent/cPersistence.c:164-268 | updates the object and its cache head exactly as `GhostifyStep` |
| CPersistence.CPersistent.Unghostify | src/persistent/cPersistence.c:105-150 | updates the object and its cache head exactly as `UnghostifyStep` |
| CPersistence.CPersistent.Accessed | src/persistent/cPersistence.c:156-162 | updates the ring exactly as `AccessedStep` |
| CPersistence.CPersistent.MarkChanged | src/persistent/cPersistence.c:270-304 | updates the state exactly as `ChangedStep`, leaving the head alone |
| CPersistence.CPersistent.Deactivate | src/persistent/cPersistence.c:329-350 | performs exactly `DeactivateStep` |
| CPersistence.CPersistent.DispatchDeactivate | src/persistent/cPersistence.c:329-350 | performs exactly `DispatchDeactivateStep` for the object's hook |
| CPersistence.CPersistent.Activate | src/persistent/cPersistence.c:352-360 | `_p_activate` is `unghostify` |
| CPersistence.CPersistent.SetChanged | src/persistent/cPersistence.c:1090-1158 | performs exactly `SetChangedStep` |
| CPersistence.CPersistent.Invalidate | src/persistent/cPersistence.c:364-379 | performs exactly `InvalidateStep` |
| CPersistence.CPersistent.SetStickyLoaded | src/persistent/cPersistence.c:1655-1662 | performs exactly `SetStickyLoadedStep` |
| CPersistence.CPersistent.LoadAndTouch | src/persistent/cPersistence.c:920-943 | loads a ghost and marks the object accessed |
| CPersistence.CPersistent.GetAttr | src/persistent/cPersistence.c:920-943 | `Per_getattro` loads and touches exactly for names `unghost_getattr` accepts |
| CPersistence.CPersistent.Store | src/persistent/cPersistence.c:1001-1010 | stores or deletes in the instance dictionary, AttributeError for a missing name |
| CPersistence.CPersistent.PrepareWrite | src/persistent/cPersistence.c:981-1000 | performs exactly `PrepareWriteStep` |
| CPersistence.CPersistent.SetAttr | src/persistent/cPersistence.c:981-1010 | performs exactly `SetAttrStep` |
| CPersistence.CPersistent.SetOid | src/persistent/cPersistence.c:1168-1195 | stores the oid as `SetOidStep` allows, otherwise changes nothing |
| CPersistence.CPersistent.SetJar | src/persistent/cPersistence.c:1205-1232 | stores the jar as `SetJarStep` allows, otherwise changes nothing |
| CPersistence.CPersistent.SetSerial | src/persistent/cPersistence.c:1240-1257 | stores the serial as `SetSerialStep` allows, otherwise changes nothing |
| CPersistence.CPersistent.SetEstimatedSize | src/persistent/cPersistence.c:1314-1340 | stores the size as `SetEstimatedSizeStep` allows (refusing a non-int, a negative int and one beyond a C `long`), otherwise changes nothing |
| CPersistence.CPersistent.SetSticky | src/persistent/cPersistence.c:1382-1401 | changes the state as `SetStickyStep` allows, otherwise changes nothing |
| PickleCache.Visited | src/persistent/picklecache.py:447-473 | an object the sweep looks at keeps its oid, jar, serial and size; one that is ejected ends a ghost with an empty dict; an up-to-date object of a jar whose base `_p_deactivate` runs ends a ghost; anything not up to date, or whose `_p_deactivate` skips the base, is untouched |
| PickleCache.SweepFrom | src/persistent/picklecache.py:430-483 | the sweep stops at or after its start, either at the end of the ring or where the budget test is satisfied, never before looking at an object while the budget is unmet; the count only falls and the ejected set only grows |
| PickleCache.SweepEjected | src/persistent/picklecache.py:441-476 | a ring position is ejected exactly when it lies before the stop and its object is up to date, of this jar, and runs the base `_p_deactivate` |
| PickleCache.SweepCount | src/persistent/picklecache.py:474-476 | every ejection lowers `non_ghost_count` by exactly one |
| PickleCache.FullSweepReachesEnd | src/persistent/picklecache.py:441-445 | with no object target and no byte budget the stop test never holds, so the sweep visits the whole ring |
| PickleCache.FullSweepEjects | src/persistent/picklecache.py:321-327 | a sweep with no budget ejects exactly the ejectable objects |
| PickleCache.SweepSpares | src/persistent/picklecache.py:447-476 | an object that is not up to date, belongs to another jar or skips the base `_p_deactivate` is never ejected |
| PickleCache.SweepEjectsOldestFirst | src/persistent/picklecache.py:440-476 | the sweep goes least recently used first: if a younger object was ejected, every older ejectable object was ejected too |
| PickleCache.SweepToTargetExample | src/persistent/picklecache.py:441-476 | four up-to-date objects of 64 bytes each, target two: the two oldest are ejected and the sweep stops at position two with 128 bytes left |
| PickleCache.IncrGcTarget | src/persistent/picklecache.py:309-319 | the incremental target never exceeds `cache_size`; with a drain resistance of at least one it never exceeds `n - 1 - n / drain_resistance` either, and it is one of the two |
| PickleCache.IncrGcTargetExample | src/persistent/picklecache.py:309-319 | 100 live objects, drain resistance 2: a cache size of 90 gives 49, a size of 10 gives 10 |
| PickleCache.DeactivateCalls | src/persistent/persistence.py:429-434 | deactivation reports to this cache (a size update of -1, then "deactivate ran") exactly when the base `_p_deactivate` runs on an up-to-date object with a jar whose cache is this one; otherwise nothing is reported |
| PickleCache.Cache.constructor | src/persistent/picklecache.py:155-175 | a new cache is empty, its counters are zero, its target size and byte budget are the arguments and it is not sweeping |
| PickleCache.Cache.LenCountsOids | src/persistent/picklecache.py:178-182 | `len` counts the distinct oids of classes and instances together |
| PickleCache.Cache.Get | src/persistent/picklecache.py:258-264 | `get` finds nothing exactly when the oid is neither a class nor an instance of the cache, and what it finds is cacheable |
| PickleCache.Cache.GetItem | src/persistent/picklecache.py:184-190 | indexing raises `KeyError` exactly when `get` finds nothing, and otherwise returns what `get` finds |
| PickleCache.Cache.RingLen | src/persistent/picklecache.py:286-289 | `ringlen` is the number of objects in the LRU ring |
| PickleCache.Cache.SizeDelta | src/persistent/picklecache.py:389-427 | an unknown oid changes nothing; every change is a whole number of 64-byte units; a new size of -1 removes the object's whole estimate; otherwise the new estimate lies above the new size and within 64 bytes of it |
| PickleCache.Cache.UpdateObjectSizeEstimation | src/persistent/picklecache.py:389-427 | `total_estimated_size` moves by exactly that change |
| PickleCache.Cache.SetItemOutcome | src/persistent/picklecache.py:192-233 | `TypeError` exactly for an uncacheable value, a non-bytes key or a value without an oid; the store goes ahead exactly when the key is the value's oid, no different object holds it, the value has a jar, and it is not cached in another cache |
| PickleCache.Cache.SetItem | src/persistent/picklecache.py:192-245 | a refused store changes nothing; a class goes to the class table; an instance goes to the data table and joins the ring's young end if it is not a ghost and not yet linked; the count moves with the ring and the value is then found under its key |
| PickleCache.Cache.StoreObject | src/persistent/picklecache.py:238-245 | storing an instance replaces the oid's entry and links it at the young end exactly when it is not a ghost and not linked |
| PickleCache.Cache.Mru | src/persistent/picklecache.py:266-284 | while a sweep runs nothing changes; otherwise an unknown oid is `KeyError` and a known one is linked or moved to the young end; the count moves with the ring |
| PickleCache.Cache.Touch | src/persistent/picklecache.py:276-284 | a linked object moves from its place to the young end; an unlinked non-ghost is appended; an unlinked ghost leaves the ring alone |
| PickleCache.Cache.Unlink | src/persistent/ring.py:233-241 | after removal the object is not in the ring; it was found exactly when it was linked, and then the ring lost just that one position |
| PickleCache.Cache.DelItem | src/persistent/picklecache.py:247-256 | `TypeError` for a non-bytes key, `KeyError` for an unknown oid, and then nothing changes; a class is dropped from the class table, an instance from the data table and the ring; the oid is then unknown, and a removed linked object leaves the count one above the ring's length |
| PickleCache.Cache.Items | src/persistent/picklecache.py:440 | the sweep's snapshot has one entry per ring object, in ring order |
| PickleCache.Cache.Ask | src/persistent/picklecache.py:447-473 | asking an up-to-date object to deactivate leaves it as `Visited` says, reports "deactivate ran" exactly when it is ejectable, and then lowers the byte total by its estimate |
| PickleCache.Cache.Eject | src/persistent/picklecache.py:473-476 | deleting a visited node removes just that ring position and lowers `non_ghost_count` by one |
| PickleCache.Cache.Sweep | src/persistent/picklecache.py:430-483 | the sweep ejects what `SweepFrom` ejects over the ring as it was, leaves the counters it computes, keeps the other objects in their order, and clears the sweeping guard |
| PickleCache.Cache.IncrGc | src/persistent/picklecache.py:309-319 | `incrgc` is the sweep with the incremental target and the cache's byte budget |
| PickleCache.Cache.FullSweep | src/persistent/picklecache.py:321-327 | `full_sweep` ejects exactly the ejectable objects, lowers the count by that number and keeps the rest in order |
| PickleCache.Cache.NewGhost | src/persistent/picklecache.py:329-348 | `AttributeError` for an uncacheable value, `ValueError` for one that already has an oid or a jar, `KeyError` for an oid already present; otherwise an instance is stored as a ghost with this oid and jar, and a class with this oid and jar, with the ring and both counters unchanged |
| PickleCache.Cache.MakeGhost | src/persistent/picklecache.py:338-347 | a fresh instance gets the oid and jar and becomes a ghost with an empty dict, and no counter moves |
| PickleCache.Cache.StoreGhost | src/persistent/picklecache.py:338-348 | a fresh instance gets the oid and jar, becomes a ghost and is stored under the oid, outside the ring and with no counter moved |
| PickleCache.Cache.ReifyOne | src/persistent/picklecache.py:355-360 | `KeyError` exactly for an unknown oid or, outside a sweep, a class that reads as a ghost (`mru` then looks it up in `data`); `AttributeError` exactly for a class without `_p_state`; a non-ghost is left alone; a ghost is activated through its jar and, once live, counted (once more than the ring grows) and moved to the young end unless a sweep is running; the ring keeps every object it held, and no other object changes |
| PickleCache.Cache.ReifyClass | src/persistent/picklecache.py:356-360 | a class without `_p_state` is `AttributeError`; one that reads as a ghost is counted as a non-ghost and then refused by `mru` with `KeyError` unless a sweep is running; any other class is left alone |
| PickleCache.Cache.ReifyGhost | src/persistent/picklecache.py:357-360 | a stored ghost ends as its activation leaves it; when that passes it is live, counted once more than the ring grows and, outside a sweep, linked at the young end; the ring keeps every object it held |
| PickleCache.Cache.TallyKept | src/persistent/picklecache.py:355-360 | what `ReifyOne` promises of the cache is one step as `TallyStep` records it |
| PickleCache.Cache.ReifyStep | src/persistent/picklecache.py:355-360 | one pass of the loop has `ReifyOne`'s error cases, keeps the oids so far reified, and is one `TallyStep` |
| PickleCache.ReifyTallyMore | src/persistent/picklecache.py:355-360 | the account of `reify` grows by one step: a ghost named for the first time and reified counts once, a ghost class counts once, and the ring's members and order are kept |
| PickleCache.Cache.Reify | src/persistent/picklecache.py:350-360 | `reify` stops at the first failure, whose error is as `ReifyOne` says; every oid before it is known and every instance among them is no longer a ghost; `ReifyTally` says that over those oids only named ghosts changed, the ring kept its objects (and its order while sweeping) and, outside a sweep, links every named ghost, and the count grew by one per named ghost, one per ghost class and one per object the ring gained; the failing step is as `TallyStep` says |
| PickleCache.Cache.InvalidateOne | src/persistent/picklecache.py:486-506 | a class is dropped from the class table and its own `_p_invalidate` is called exactly when it has one; a non-ghost instance is invalidated, unlinked and uncounted, and its estimate leaves the byte total when its `_p_deactivate` reports here; the sweeping guard is clear afterwards |
| PickleCache.Cache.InvalidateKept | src/persistent/picklecache.py:488-491 | what `InvalidateOne` promises of the cache is one step as `InvalidateStepped` records it |
| PickleCache.InvalidateTallyMore | src/persistent/picklecache.py:368-369 | the account of `invalidate` grows by one step: a live object counted out leaves the ring, and its dropping counts once more |
| PickleCache.InvalidateAlong | src/persistent/picklecache.py:368-369 | a history whose every step is as `InvalidateStepped` says adds up to `InvalidateTally` from its first tally to its last |
| PickleCache.Cache.InvalidateNext | src/persistent/picklecache.py:368-369 | one pass of the loop drops the oid's class and extends the history by the step it took |
| PickleCache.Cache.Invalidate | src/persistent/picklecache.py:362-369 | every listed oid leaves the class table, the data table is unchanged, the sweeping guard is clear unless nothing was listed, and every listed instance with a jar whose base `_p_deactivate` runs ends a ghost; by `InvalidateTally` only listed objects that were live changed, each left the ring, the ring gained nothing, and the count fell by `dropped`: at least the number of different live objects listed, and exactly that when each listed object runs the base deactivation with a jar |
| PickleCache.Cache.BaseGhosts | src/persistent/picklecache.py:488-489 | what `InvalidateTally` says of the listed objects that run the base deactivation with a jar holds of the cache: they are ghosts |
| LegacyPickleCache.Visited | persistent/picklecache.py:338-354 | an object the sweep looks at keeps its oid, jar, serial and size; an up-to-date object with a jar is deactivated to a ghost with an empty dict; any other object is untouched |
| LegacyPickleCache.SweepFrom | persistent/picklecache.py:326-367 | the sweep stops at or after its start, at the end of the ring or where the count is within the target and the byte total within its budget, never before looking at an object while that test fails; the count only falls and the recorded set only grows |
| LegacyPickleCache.SweepEjected | persistent/picklecache.py:334-361 | a ring position is recorded for ejection exactly when it lies before the stop and holds an up-to-date object whose class is not one of `_SWEEPABLE_TYPES` |
| LegacyPickleCache.SweepCount | persistent/picklecache.py:357-361 | every recorded object lowers `non_ghost_count` by exactly one |
| LegacyPickleCache.SweepKeepsSweepable | persistent/picklecache.py:357-361 | since nothing sets `_persistent_deactivate_ran`, a ring of legacy `Persistent` objects loses nothing and keeps its count, whatever the budget |
| LegacyPickleCache.FullSweepEjectsAll | persistent/picklecache.py:223-229 | a sweep with target 0 and no byte budget records every recordable object, provided the count is at least their number |
| LegacyPickleCache.FullSweepStopsAtZeroExample | persistent/picklecache.py:334-336 | target 0 is itself a budget: with a count of 2 and three recordable objects the sweep records the first two and stops, where the current cache's stop test would never hold |
| LegacyPickleCache.OidsKeep | persistent/ring.py:127-130 | dropping positions from the objects drops the same positions from their oids |
| LegacyPickleCache.KeptRing | persistent/picklecache.py:363-365 | after `delete_all` the ring's oids stay distinct and are exactly the old ones minus those at the dropped positions |
| LegacyPickleCache.Touched | persistent/picklecache.py:169-186 | after `mru` the object is at the young end unless it was an unlinked ghost; a linked object keeps the length, an unlinked non-ghost adds one; nothing already in the ring is lost |
| LegacyPickleCache.Cache.constructor | persistent/picklecache.py:66-86 | a new cache is empty, its counters are zero, its target size and byte budget are the arguments and it is not sweeping |
| LegacyPickleCache.Cache.ContainsStored | persistent/ring.py:103-104 | for a stored object the deque's test by oid is membership of the object itself |
| LegacyPickleCache.Cache.LenCountsOids | persistent/picklecache.py:89-93 | `len` counts the distinct oids of classes and instances together |
| LegacyPickleCache.Cache.Get | persistent/picklecache.py:160-167 | `get` finds nothing exactly when the oid is neither a class nor an instance of the cache, and what it finds is cacheable |
| LegacyPickleCache.Cache.GetItem | persistent/picklecache.py:95-101 | indexing raises `KeyError` exactly when `get` finds nothing, and otherwise returns what `get` finds |
| LegacyPickleCache.Cache.SizeDelta | persistent/picklecache.py:289-299 | an unknown oid changes nothing; every change is a whole number of 64-byte units; a new size of -1 removes the object's whole estimate; otherwise the new estimate lies above the new size and within 64 bytes of it |
| LegacyPickleCache.Cache.UpdateObjectSizeEstimation | persistent/picklecache.py:289-299 | `total_estimated_size` moves by exactly that change |
| LegacyPickleCache.Cache.RingLen | persistent/picklecache.py:188-191 | `ringlen` is the number of ring objects, which is also the number of their oids |
| LegacyPickleCache.Cache.SetItemOutcome | persistent/picklecache.py:103-138 | `TypeError` exactly for an uncacheable value, a non-bytes key or a value without an oid; the store goes ahead exactly when the key is the value's oid, no different object holds it, the value has a jar or is a class, and no other cache holds the oid; a class without a jar is accepted |
| LegacyPickleCache.Cache.SetItem | persistent/picklecache.py:103-147 | a refused store changes nothing; a class goes to the class table; an instance goes to the data table and joins the ring's young end if it is not a ghost and not yet linked; the count moves with the ring and the value is then found under its key |
| LegacyPickleCache.Cache.StoreObject | persistent/picklecache.py:142-147 | storing an instance replaces the oid's entry and appends it to the ring exactly when it is not a ghost and not linked, counting it |
| LegacyPickleCache.Cache.MoveStored | persistent/ring.py:123-125 | `move_to_head` takes the object from its place and puts it at the young end |
| LegacyPickleCache.Cache.Mru | persistent/picklecache.py:169-186 | while a sweep runs nothing changes; otherwise an unknown oid is `KeyError` and a known one is touched as `Touched` says; the count moves with the ring |
| LegacyPickleCache.Cache.Unlink | persistent/ring.py:110-121 | after `delete` the object is not in the ring, which lost just that position if it was there and is unchanged otherwise |
| LegacyPickleCache.Cache.DelItem | persistent/picklecache.py:149-158 | `TypeError` for a non-bytes key, `KeyError` for an unknown oid, and then nothing changes; a class is dropped from the class table, an instance from the data table and the ring; the oid is then unknown and the count is never lowered |
| LegacyPickleCache.Cache.Visit | persistent/picklecache.py:338-361 | a visited object ends as `Visited` says, is recorded exactly when it is recordable, and then lowers the count by one |
| LegacyPickleCache.Cache.EjectRecorded | persistent/picklecache.py:363-365 | `delete_all` of the recorded pairs removes exactly the recorded positions |
| LegacyPickleCache.Cache.SweepBegins | persistent/picklecache.py:332-334 | a sweep starts at the ring's first object with nothing reached and nothing recorded, and what it records from there is `SweepFrom` over the ring as it is |
| LegacyPickleCache.Cache.SweepRing | persistent/picklecache.py:334-367 | the loop and the deletion together eject exactly what `SweepFrom` records, leave the count it computes, keep the unrecorded objects in order and leave the stored objects and the byte total alone |
| LegacyPickleCache.Cache.Sweep | persistent/picklecache.py:326-367 | the sweep ejects what `SweepFrom` records over the ring as it was, leaves the count it computes and the byte total unchanged, keeps the other objects in order, and clears the sweeping guard |
| LegacyPickleCache.Cache.IncrGc | persistent/picklecache.py:211-221 | `incrgc` is the sweep with the incremental target and the cache's byte budget |
| LegacyPickleCache.Cache.FullSweep | persistent/picklecache.py:223-229 | `full_sweep` is the sweep with target 0: the count falls by the number ejected, the rest keep their order, and every recordable object goes when the count allows it |
| LegacyPickleCache.Cache.NewGhost | persistent/picklecache.py:231-250 | `ValueError` for a value with an oid or a jar, `KeyError` for an oid already present, `AttributeError` for an uncacheable value and for every fresh instance (which gets its oid and jar before the missing helper is called); only a class is stored, with this oid and jar |
| LegacyPickleCache.Cache.ReifyOne | persistent/picklecache.py:257-262 | `KeyError` exactly for an unknown oid or, outside a sweep, a class that reads as a ghost; `AttributeError` exactly for a class without `_p_state`; a failure leaves the ring as it was; a non-ghost is left alone; a ghost is activated through its jar, counted once more than the ring grows, and touched as `Touched` says unless a sweep is running; the ring keeps every object it held, a ghost that came back to life is in it, and no other object changes |
| LegacyPickleCache.Cache.ReifyClass | persistent/picklecache.py:258-262 | a class without `_p_state` is `AttributeError`; one that reads as a ghost is counted as a non-ghost and then refused by `mru` with `KeyError` unless a sweep is running; any other class is left alone |
| LegacyPickleCache.Cache.ReifyGhost | persistent/picklecache.py:259-262 | a stored ghost ends as its activation leaves it; when that passes it is counted once more than the ring grows and, outside a sweep, touched as `Touched` says |
| LegacyPickleCache.Cache.TallyKept | persistent/picklecache.py:257-262 | what `ReifyOne` promises of the cache is one step as `TallyStep` records it |
| LegacyPickleCache.Cache.ReifyStep | persistent/picklecache.py:257-262 | one pass of the loop has `ReifyOne`'s error cases and is one `TallyStep` |
| LegacyPickleCache.Cache.ReifyNext | persistent/picklecache.py:257-262 | a pass that succeeds carries the loop's account one oid further; one that fails is one `TallyStep` |
| LegacyPickleCache.ReifyTallyMore | persistent/picklecache.py:257-262 | the account of `reify` grows by one passed step: its activations add to `acts`, a ghost named for the first time is among them, and revived ghosts stay in the ring |
| LegacyPickleCache.RevivedMore | persistent/picklecache.py:259-262 | outside a sweep, a named ghost that is live after one more step is in the ring |
| LegacyPickleCache.ActsMore | persistent/picklecache.py:259-261 | a ghost named for the first time is still the ghost it was, so the step counts an activation for it |
| LegacyPickleCache.Cache.Reify | persistent/picklecache.py:252-262 | `reify` stops at the first failure, whose error is as `ReifyOne` says; every oid before it is known; by `ReifyTally` only named ghosts changed, the ring kept its objects (and its order while sweeping) and, outside a sweep, holds every named ghost that is live now, and the count grew by `acts` plus what the ring gained, `acts` being at least one per named ghost and one per ghost class; the failing step is as `TallyStep` says |
| LegacyPickleCache.Cache.InvalidateOne | persistent/picklecache.py:370-384 | a class is dropped from the class table and its own `_p_invalidate` is called exactly when it has one; a non-ghost instance is invalidated, removed from the ring and uncounted; the sweeping guard is clear afterwards |
| LegacyPickleCache.Cache.InvalidateKept | persistent/picklecache.py:371-375 | what `InvalidateOne` promises of the cache is one step as `InvalidateStepped` records it |
| LegacyPickleCache.InvalidateTallyMore | persistent/picklecache.py:270-271 | the account of `invalidate` grows by one step: a live object counted out leaves the ring and, with a jar, is a ghost |
| LegacyPickleCache.InvalidateAlong | persistent/picklecache.py:270-271 | a history whose every step is as `InvalidateStepped` says adds up to `InvalidateTally` from its first tally to its last |
| LegacyPickleCache.Cache.InvalidateNext | persistent/picklecache.py:270-271 | one pass of the loop drops the oid's class and extends the history by the step it took |
| LegacyPickleCache.Cache.Invalidate | persistent/picklecache.py:264-271 | every listed oid leaves the class table, the data table is unchanged, the sweeping guard is clear unless nothing was listed, and every listed instance with a jar ends a ghost; by `InvalidateTally` only listed objects that were live changed, each left the ring, the ring gained nothing, and the count fell by `dropped`: at least the number of different live objects listed, and exactly that when each of them has a jar |
| LegacyPickleCache.Cache.JarGhosts | persistent/picklecache.py:372-373 | what `InvalidateTally` says of the listed objects with a jar holds of the cache: they are ghosts |
| CPickleCache.FirstRefused | src/persistent/cPickleCache.c:397-411 | the position of the first key `_invalidate` fails on (a class referenced outside the cache and without `_p_invalidate`), or the length when every key succeeds; no earlier key fails |
| CPickleCache.VisitOrder | src/persistent/cPickleCache.c:427-459 | a sequence of oids is visited from its last element to its first |
| CPickleCache.Backwards | src/persistent/cPickleCache.c:450-459 | the reversed sequence has the same length and holds at position x the element x places from the end of the original |
| CPickleCache.AsUnsigned | src/persistent/cPickleCache.c:703-707 | the `"I"` argument conversion yields a value below 2^32 and leaves a value already in that range unchanged |
| CPickleCache.CCache.constructor | src/persistent/cPickleCache.c:882-922 | a new cache has empty `data`, no classes, an unlocked empty ring with both counters zero, and the jar, cache size and byte budget given, with drain resistance 0 |
| CPickleCache.CCache.AddItem | src/persistent/cPickleCache.c:1058-1190 | the outcome is the checks in order (`TypeError` for a non-persistent value or a missing oid, `ValueError` for a key other than the oid, a missing jar, a different entry or another cache); a new class is stored and counted; a new object is stored, pointed at this cache and, unless a ghost, linked at the most recently used end; re-adding the stored value changes nothing |
| CPickleCache.CCache.StoreClass | src/persistent/cPickleCache.c:1144-1151 | a class is stored under its oid and `klass_count` rises by one |
| CPickleCache.CCache.StoreObject | src/persistent/cPickleCache.c:1171-1187 | an object is stored, points at this cache, and is linked at the young end exactly when it is not a ghost |
| CPickleCache.CCache.DelItem | src/persistent/cPickleCache.c:1192-1242 | `KeyError` exactly for an absent key; the key is then gone; a class lowers `klass_count`; a non-ghost object is unlinked from just its position; a removed object no longer points at any cache |
| CPickleCache.CCache.DropClass | src/persistent/cPickleCache.c:1206-1209 | the class entry goes and `klass_count` falls by one |
| CPickleCache.CCache.DropObject | src/persistent/cPickleCache.c:1210-1232 | the object entry goes, the object's `cache` field is cleared, and its ring node is removed exactly when it is not a ghost |
| CPickleCache.CCache.NewGhost | src/persistent/cPickleCache.c:730-832 | the outcome is the checks in order (`TypeError` for a non-persistent value, `ValueError` for an oid or jar already set or a key already present, an assertion for an instance already in a cache); a class gets the jar and oid and is counted; an instance gets this cache, the jar and oid and becomes a ghost, so the ring is unchanged; a failure changes nothing |
| CPickleCache.CCache.UpdateObjectSizeEstimation | src/persistent/cPickleCache.c:699-728 | the byte total moves only for an object of the cache that is in the ring, and then by the change in its 64-byte units |
| CPickleCache.CCache.RingLen | src/persistent/cPickleCache.c:687-697 | the count of nodes after the home is the ring's length and equals `non_ghost_count` |
| CPickleCache.CCache.LruItems | src/persistent/cPickleCache.c:571-619 | `ValueError` while the ring is locked; otherwise one `(oid, object)` pair per ring node, least recently used first, each the entry stored under that oid |
| CPickleCache.CCache.Evict | src/persistent/cPickleCache.c:250-287 | with a placeholder after it, an up-to-date object is asked to deactivate: with the base method it becomes a ghost, leaves the ring and both counters; with an override that skips the base it is unchanged; the scan goes on at the node after it |
| CPickleCache.CCache.Deactivate | src/persistent/cPickleCache.c:270-281 | calling `_p_deactivate` ghosts the object and uncounts it exactly when the base method runs, and fails exactly when the override raises |
| CPickleCache.CCache.LinkPlaceholder | src/persistent/cPickleCache.c:269 | the placeholder goes directly after the current node |
| CPickleCache.CCache.UnlinkPlaceholder | src/persistent/cPickleCache.c:283-284 | the scan continues at the placeholder's successor, and the placeholder is gone |
| CPickleCache.CCache.ScanOne | src/persistent/cPickleCache.c:248-289 | one scan step ghosts the object exactly when it is up to date with the base `_p_deactivate`, lowering the count by one and the byte total by its size, and fails exactly when its override raises |
| CPickleCache.CCache.ScanGcItems | src/persistent/cPickleCache.c:197-295 | the scan leaves the cache as `ScanFrom` over the ring as it was says: the counters it computes, the ring without the objects it ghosted, those ghosts with an empty dict, the others unchanged; a raising `_p_deactivate` is a failure and the ghosts made before it stay |
| CPickleCache.CCache.LinkMarker | src/persistent/cPickleCache.c:218-219 | the marker goes after the most recently used node and the scan starts at the least recently used one |
| CPickleCache.CCache.UnlinkMarker | src/persistent/cPickleCache.c:293 | once the marker is removed the ring is the old ring without the ghosted positions |
| CPickleCache.CCache.InvalidateKey | src/persistent/cPickleCache.c:388-419 | an absent key changes nothing; a class only the cache references is dropped; a referenced class without `_p_invalidate` is `AttributeError`; an object is invalidated to a ghost and leaves the ring |
| CPickleCache.CCache.InvalidateObject | src/persistent/cPickleCache.c:409-418 | calling the object's `_p_invalidate` leaves it a ghost, as the invalidation step says, with its node removed from the ring |
| CPickleCache.CCache.InvalidateKeys | src/persistent/cPickleCache.c:429-459 | the keys are invalidated in order up to the first refused one, which is `AttributeError`; exactly the dropped classes leave `data`, the invalidated objects leave the ring and are ghosts |
| CPickleCache.CCache.Invalidate | src/persistent/cPickleCache.c:421-467 | a dict's keys, one oid or a sequence (last to first) are invalidated as `InvalidateKeys` says; an argument without a length is `TypeError`; once every key is invalidated the dict is cleared and a mutable sequence emptied, while an immutable one is left as it was and, since the failed `PySequence_DelSlice` is ignored, the call ends in SystemError |
| CPickleCache.CCache.LockGc | src/persistent/cPickleCache.c:297-320 | nothing happens while the ring lock is held; otherwise the cache ends as the scan says, a raising `_p_deactivate` is reported, and the lock is released |
| CPickleCache.CCache.IncrGc | src/persistent/cPickleCache.c:322-353 | with the obsolete argument given and its warning raised nothing happens and the call fails; otherwise it is `lockgc` with the incremental target (as the Python cache computes it) and the byte budget |
| CPickleCache.CCache.FullSweep | src/persistent/cPickleCache.c:355-368 | `full_sweep()` is `lockgc(0, 0)`; with an argument it is `incrgc` |
| CPickleCache.CCache.Minimize | src/persistent/cPickleCache.c:370-386 | `minimize` is `lockgc(0, 0)`, unless the obsolete argument's warning is raised |
| CPickleCache.ContinueUnlessSatisfied | src/persistent/cPickleCache.c:230-238 | the C loop test is exactly the negation of the Python `_sweep` stopping test |
| CPickleCache.ScanFrom | src/persistent/cPickleCache.c:230-290 | the scan stops at or after its start, ejecting only what it passes; a failure stops at an up-to-date object whose `_p_deactivate` raises; otherwise it stops at the marker or when the loop test fails; the count only falls |
| CPickleCache.ScanEjected | src/persistent/cPickleCache.c:250-287 | among the positions passed, exactly the up-to-date objects with the base `_p_deactivate` are ghosted |
| CPickleCache.ScanCounts | src/persistent/cPickleCache.c:250-287 | the count falls by exactly the number ghosted |
| CPickleCache.FullScanEjects | src/persistent/cPickleCache.c:220-238 | with both targets zero and no raising override, the scan reaches the marker and ghosts every up-to-date object with the base `_p_deactivate` |
| CPickleCache.DispatchOnScan | src/persistent/cPersistence.c:329-350 | deactivating an up-to-date cached object: the base method ghosts it, empties its dict, unlinks its node and lowers both counters; an override skipping it changes nothing; a raising override fails |
| CPickleCache.Ghosted | src/persistent/cPersistence.c:164-268 | a ghosted object is a ghost with an empty dict and keeps its jar, oid, size and cache |
| CPickleCache.SizeDelta | src/persistent/cPickleCache.c:715-719 | for a new size up to 1073741696 the change lies within 64 bytes above the new size less the old estimate; above it the estimate saturates at 2^24-1 units |
| PyTimeStamp.HighWord | src/persistent/timestamp.py:75-76 | the first big-endian word of the raw bytes is below 2^32 |
| PyTimeStamp.LowWord | src/persistent/timestamp.py:75-76 | the second big-endian word of the raw bytes is below 2^32 |
| PyTimeStamp.PackWords | src/persistent/timestamp.py:73 | `struct.pack('>II', a, b)` succeeds exactly when both words fit in 32 bits, fails with struct.error otherwise, and unpacking gives the two words back |
| PyTimeStamp.PackWordsOf | src/persistent/timestamp.py:73-76 | packing the two unpacked words reproduces the raw bytes |
| PyTimeStamp.MakeRaw | src/persistent/timestamp.py:69-73 | the first word is `((((y-1900)*12+mo-1)*31+d-1)*24+h)*60+mi` and the second the seconds word; out-of-range words raise struct.error |
| PyTimeStamp.ParseMinutes | src/persistent/timestamp.py:75-86 | any minutes word decodes to in-range components, and 0 decodes to 1900-01-01 00:00 |
| PyTimeStamp.MinutesOfParse | src/persistent/timestamp.py:69-86 | packing the decoded components gives the minutes word back |
| PyTimeStamp.ParseOfMinutes | src/persistent/timestamp.py:69-86 | decoding the packed word of in-range components gives the components back |
| PyTimeStamp.New | src/persistent/timestamp.py:92-111 | any arity but 1 or 6 raises TypeError; one argument must be bytes of length 8 (TypeError otherwise) and becomes the raw value; six components are packed, raising struct.error when a word overflows, and in-range components read back unchanged |
| PyTimeStamp.NewOfElements | src/persistent/timestamp.py:92-111 | building a stamp from its decoded elements gives the same stamp |
| PyTimeStamp.BytesLessNumeric | src/persistent/timestamp.py:165-203 | lexicographic order on equal-length bytes is the order of their big-endian values |
| PyTimeStamp.BigEndianInjective | src/persistent/timestamp.py:165-169 | equal-length bytes with the same value are equal, so equality of raw bytes is equality of values |
| PyTimeStamp.RawTotalOrder | src/persistent/timestamp.py:194-203 | `<` on raw bytes is irreflexive, total on distinct stamps and transitive |
| PyTimeStamp.RawValue | src/persistent/timestamp.py:75-76 | the 8-byte value is the first word times 2^32 plus the second |
| PyTimeStamp.Compare | src/persistent/timestamp.py:165-203 | a comparison is NotImplemented exactly when the other operand has no `raw()` |
| PyTimeStamp.CompareNumeric | src/persistent/timestamp.py:165-203 | between two stamps every comparison is the numeric comparison of the 8-byte values |
| PyTimeStamp.LaterThan | src/persistent/timestamp.py:149-163 | a non-TimeStamp raises ValueError; self is returned when later; otherwise other's first word with the second word plus 1, with no carry, failing exactly when that word is 2^32-1 |
| PyTimeStamp.LaterThanIsLater | src/persistent/timestamp.py:149-163 | when it succeeds the result is strictly later than other and not earlier than self |
| PyTimeStamp.ToLong | src/persistent/timestamp.py:47-51 | the wrap-around to a signed 64-bit C long lands in range and is congruent to the input modulo 2^64 |
| PyTimeStamp.HashOf | src/persistent/timestamp.py:177-192 | the hash is a signed C long and never -1 |
| PyTimeStamp.Hash | src/persistent/timestamp.py:177-192 | the loop `x = 1000003*x ^ b` from `x = b0<<7`, then `x ^= 8` and the wrap-around, computes `HashOf` |
| PyTimeStamp.HashExamples | src/persistent/timestamp.py:177-192 | the all-zero stamp hashes to 8 and `...\x01` to 9 |
| CTimeStamp.Pack | src/persistent/_timestamp.c:82-87 | `TS_PACK_UINT32_INTO_BYTES` writes exactly four bytes |
| CTimeStamp.UnpackPack | src/persistent/_timestamp.c:82-98 | unpacking the packed bytes gives back any value below 2^32 |
| CTimeStamp.PackUnpack | src/persistent/_timestamp.c:82-98 | packing the unpacked value gives back any four bytes |
| CTimeStamp.UnpackIsBigEndian | src/persistent/_timestamp.c:98 | `TS_UNPACK_UINT32_FROM_BYTES` reads the four bytes as a big-endian number |
| CTimeStamp.DaysInMonth | src/persistent/_timestamp.c:102-125 | `days_in_month` reads a length between 28 and 31 from the `month_len` row `leap(y)` selects |
| CTimeStamp.DaysInMonthIsGregorian | src/persistent/_timestamp.c:102-125 | February has 29 days exactly in leap years (divisible by 4, and not by 100 unless by 400) and 28 otherwise; April, June, September and November have 30; the other months 31 |
| CTimeStamp.UnpackParts | src/persistent/_timestamp.c:292-302 | `TimeStamp_unpack` gives a year from 1900, a month 1..12, a day 1..31 and minutes within a day |
| CTimeStamp.UnpackMinutes | src/persistent/_timestamp.c:292-302 | the unpacked parts repack into the minutes word they came from |
| CTimeStamp.UnpackAgreesWithPython | src/persistent/_timestamp.c:292-302 | the C unpack and the Python `_parseRaw` decode the same year, month, day, hour and minute |
| CTimeStamp.WrappedMinutesOf | src/persistent/_timestamp.c:612-620 | the C packing of a valid date is the Python minutes formula reduced modulo 2^32 |
| CTimeStamp.FromDate | src/persistent/_timestamp.c:573-626 | ValueError exactly for year < 1900, month outside 1..12, day outside 1..days_in_month, hour outside 0..23 or minute outside 0..59; otherwise the first word is the packed minutes and the second the seconds word |
| CTimeStamp.FromDateUnpacks | src/persistent/_timestamp.c:573-626 | for a valid date whose minutes fit in 32 bits, `TimeStamp_unpack` inverts `FromDate` |
| CTimeStamp.Memcmp | src/persistent/_timestamp.c:228-265 | `memcmp` returns a negative, zero or positive result |
| CTimeStamp.MemcmpOrder | src/persistent/_timestamp.c:228-265 | `memcmp` is negative, positive or zero exactly when the bytes are lexicographically less, greater or equal |
| CTimeStamp.RichCompare | src/persistent/_timestamp.c:228-265 | comparison with another type gives NotImplemented, and only then |
| CTimeStamp.RichCompareAgrees | src/persistent/_timestamp.c:228-265 | every comparison of two stamps agrees with the Python implementation |
| CTimeStamp.LaterThan | src/persistent/_timestamp.c:412-475 | another type raises TypeError; between stamps the carry loop over bytes 7..4 and the calendar rollover compute `Later` |
| CTimeStamp.IncrementSeconds | src/persistent/_timestamp.c:439-449 | the carry loop over a copy of bytes 7..4 succeeds exactly when the second word is not full, and then gives the same first word with the second word one higher |
| CTimeStamp.Carried | src/persistent/_timestamp.c:439-449 | a carry that stops at byte i adds exactly one to the second word of the copy |
| CTimeStamp.LaterSucceeds | src/persistent/_timestamp.c:412-475 | the only failure is ValueError, exactly when self is not later, all four low bytes wrap and the stored day is past the end of its month |
| CTimeStamp.NextMinuteMinutes | src/persistent/_timestamp.c:450-474 | the rollover moves to a later minute word: the next minute, or the start of the next month at most four days on |
| CTimeStamp.LaterIsLater | src/persistent/_timestamp.c:412-475 | except at the all-ones maximum, a successful result is strictly later than other |
| CTimeStamp.CarryIsLater | src/persistent/_timestamp.c:439-449 | incrementing a second word below 2^32-1 gives a strictly later stamp |
| CTimeStamp.RolloverIsLater | src/persistent/_timestamp.c:450-474 | when all four low bytes wrap, the calendar step gives a strictly later stamp except at the maximum |
| CTimeStamp.MaximumStamp | src/persistent/_timestamp.c:412-475 | both words at 2^32-1 means all eight bytes are 255 |
| CTimeStamp.LaterWrapsAtMaximum | src/persistent/_timestamp.c:412-475 | from the all-ones stamp the minute rollover wraps the 32-bit word and yields the zero stamp |
| CTimeStamp.Hash | src/persistent/_timestamp.c:268-280 | the loop accumulating `1000003*x ^ byte` in a C long from `x = b0<<7`, then `x ^= 8` with -1 mapped to -2, equals the Python hash |
| CTimeStamp.HashStep | src/persistent/_timestamp.c:273-274 | one step of the loop on a wrapped accumulator agrees with the unbounded accumulation modulo 2^64 |
| CTimeStamp.New | src/persistent/_timestamp.c:628-651 | bytes must be exactly 8 long (ValueError otherwise) and are taken as they are; unparsable arguments raise TypeError; components that do not fit a C int raise OverflowError; otherwise the result is `FromDate` of the components (missing hour, minute and seconds read as 0), which succeeds exactly for a valid date and is ValueError otherwise |

## Left out

- Pickling and reflection are not modelled: `__getstate__`, `__setstate__` beyond its flag reset, `__reduce__`, `_slotnames`/`copyreg`, the `pickle_*` functions and slot clearing. They depend on Python's object layout, not on the state machine.
- `__repr__` and `Per_repr` are not modelled; `oid_repr` is, as a pure function.
- Weak references and garbage collection are not modelled, because the runtime's freeing of objects cannot be modelled.
  - This covers `_WeakValueDictionary`'s address casting, `gc.collect()` in `_sweep`, reference counts, `cc_oid_unreferenced`, `cc_clear`, `cc_traverse` and `Per_dealloc`.
  - The cleanup hook is kept only as the branch of `__setitem__` that gives a ghost its ring node.
  - The oid table is a plain map, so an object never leaves it by being collected.
- Floating-point time is not modelled: second values, `timeTime`, `_makeUTC`, `_yad`/`_abst` and the GMT offset. The second is kept as its scaled 32-bit word.
- `ring.c` and the CFFI build script are not part of this model. `ring_add`, `ring_del` and `ring_move_to_head` are modelled as the splices `cPickleCache.c` shows, on the generic linked ring.
- `cPersistence.h` is not part of this model. Its cache head and its `_estimated_size_in_bytes`/`_estimated_size_in_24_bits` macros are modelled as the Python definitions: units times 64, and `v/64+1` capped at 2^24-1.
- Packaging plumbing is not modelled: module initialisation, type slots, the C-or-Python switch in `_compat.py` and `__init__.py`, and `setup.py`.
- `list.py`, `mapping.py`, `dict.py` and `wref.py` are not modelled. They are wrappers that only set `_p_changed` or delegate to the jar.
- The read-only accessors are not modelled: `debug_info`, `items`, `lru_items` and `klass_items` of the Python caches, `cc_get`, `cc_items`, `cc_klass_items`, `cc_debug_info`, `cc_length` and `cc_subscript`. They report the tables that `Get`, `Len` and `LruItems` describe.
- Deprecation warnings for obsolete arguments are modelled only as the `warningRaises` parameter of `CPickleCache.CCache.IncrGc`, `FullSweep` and `Minimize`: when a warning raises, the call fails and does nothing.
- Arbitrary Python code in callbacks is not modelled.
  - An object's `_p_deactivate` is one of a few fixed behaviours, and which ones depends on the implementation. The C model (`CPersistence.Hook`) has three: the base method, an override that skips it, and an override that raises. The Python model (`Persistence.DeactivateHook`) has only the base method and an override that skips it; an override that raises is not modelled there. The legacy models (`LegacyPersistence`, `LegacyPickleCache`) always run the base method.
  - A callback that mutates the ring during `scan_gc_items` is not modelled. For that reason the marker and placeholder are proved to delimit the scan only for the ring as it was.
- CPickleCache.CCache.InvalidateKey: `_invalidate`'s reference-count test is the parameter `referenced`, the classes referenced outside the cache. A class's own `_p_invalidate` is assumed to return normally, and an object's `_p_invalidate` is always the base one.
- CPickleCache.CCache.Invalidate: a failing `PySequence_GetItem` is not modelled. A failing `PyObject_Length` is the `Unsized` argument, which is a `TypeError`. The failure of `PySequence_DelSlice` is modelled only for a sequence that refuses slice deletion (the `mutable` flag); the error the interpreter reports for it is taken to be SystemError, and the TypeError chained to it is not modelled.
- PyTimeStamp.ToLong: a C `long` is taken to be 64 bits wide. On Windows it is 32 bits, and the source's `ctypes.c_long` wrap-around, and so `HashOf`, `Hash` and `CTimeStamp.Hash`, would then differ. `CPersistence.LONG_MAX` makes the same 64-bit assumption.
- CPickleCache.CCache.AddItem: `cc_ass_sub`'s check that the key is bytes is not modelled; keys are oids.
- CPickleCache.CCache.UpdateObjectSizeEstimation: the model changes nothing for a class entry. The C code reads a ring link there that a class does not have.
- PickleCache.Cache.SetItem: the `elsewhere` parameter stands for whether the other cache on the object's jar holds the oid. A store refused for that reason is modelled, but the other cache itself is not.
- LegacyPickleCache.Cache.Reify: the count is bounded below by the named ghosts and ghost classes, not given exactly. A load whose state leaves no flags keeps the object a ghost, so a later mention of its oid activates and counts it again. For the same reason, unlike `PickleCache.Cache.Reify`, the contract does not say that the objects reified before a failure are live.
- PickleCache.Cache.Invalidate: the contract does not say that `Balanced` (the count agreeing with the ring) survives, because `_invalidate` counts out a live object even when it was not in the ring. It does not say that unlisted objects stay in the ring either, because the model's ring lets two objects share one node.
- LegacyPickleCache.Cache.Invalidate: the contract does not say that unlisted objects stay in the ring. Each step's own contract (`InvalidateOne`) does say that only the listed object's position is removed.
