# RustPython `dict` and `os` helpers in Dafny

This project models two parts of the RustPython virtual machine.

**The built-in `dict` type** (`vm/src/obj/objdict.rs`). Covered:
- the Python-visible methods: construction and `update` from a dict, a keys-mapping, an iterable of pairs or keyword arguments;
- `fromkeys`, `get`, `setdefault`, `pop`, `popitem`, `copy`, the three `|` operators, equality and hashing;
- the internal `DictIter`;
- the `keys`/`values`/`items` views with their forward and reverse iterators.

The hash-table engine these call (`dictdatatype::Dict`) is not part of this model. In its place, `EntryStore.Store` is an abstract entry store:
- a sequence of slots, each empty or holding a `(key, value)` pair;
- a live count;
- the operations `objdict.rs` calls on it, each specified by functions on the slots.

Insertion order is the order of the live slots. `next_entry(pos)` returns the first live slot at index `pos` or later and moves `pos` just past it.

**Decision helpers of the `os` module** (`vm/src/stdlib/os.rs`). Covered:
- the POSIX permission-bit logic behind `os.access`;
- the Windows `attributes_to_mode`;
- the mapping of `io::Error` and `nix::Error` to exception classes;
- `make_path`'s `dir_fd` rejection and `open`'s flag decoding;
- the argument checks of `utime`, `execv` and `chown`;
- `envp_from_dict`;
- the sticky end flag of `ScandirIterator`;
- the `supports_*` sets built by `make_module`.

**How the outside world enters.** Foreign calls become parameters of the operations that make them:
- object identity (`is`) and `vm.bool_eq`;
- a subclass's `__missing__`, as a field of `Dict`;
- a mapping's `__getitem__`;
- `PyPathLike` conversion to bytes;
- `getuid`, `getgroups` and `fs::metadata` results;
- the `open` system call;
- the directory listing.

**Representation.**
- Modes, flags and ids use Rust's `u32`/`i32` as 32-bit bit-vectors or a bounded `newtype`.
- Integer division is written out as Rust's truncating division.
- `merge_dict`, `envp_from_dict` and `inner_cmp` keep their `for` loop's `DictIter` position in a local and call `next_entry` with it. That is all `DictIter::next` does.
- Flag and errno values are Linux's: O_WRONLY=1, O_RDWR=2, O_CREAT=0o100, O_EXCL=0o200, O_APPEND=0o2000, EPERM=1, EAGAIN=EWOULDBLOCK=11, EALREADY=114, EINPROGRESS=115.

**`popitem` removes the first entry.** `popitem` delegates to the engine's `pop_front`; this model removes the first live pair in insertion order (see `EntryStore.Store.PopFront` under "## Left out").

**The reverse iterator misorders pairs after a deletion.** It counts calls from 1 and reads entry index `len - count`, which is exact only when the store has no deleted slots. The iterator class keeps this behaviour as written (see "## Findings"):
- `DictIterators.ReverseExactWithoutHoles` proves the exact case;
- `DictIterators.ReverseSkewedByHole` shows a store where the first reverse step yields the first pair instead of the last;
- `DictIterators.ReverseWalkIsReversedItems` proves that a walk back from the last slot yields the pairs in reverse insertion order with or without deleted slots.

The `unwrap()` on `next_entry` in the reverse iterator is proved never to fail. While `count <= len`, a live slot exists at or after `len - count`, so that lookup always succeeds.

## Model

| member | source | states |
|---|---|---|
| EntryStore.Store.Get | vm/src/obj/objdict.rs:281-292 | the engine lookup returns the value stored under the key, or nothing |
| EntryStore.Store.Contains | vm/src/obj/objdict.rs:220-223 | true exactly when the key is stored |
| EntryStore.Store.Insert | vm/src/obj/objdict.rs:261-269 | the key maps to the value afterwards; a present key keeps its slot, a new one is appended; the live count grows by one exactly for a new key; the store stays consistent (unique keys, count = live slots) |
| EntryStore.Store.Pop | vm/src/obj/objdict.rs:360-374 | returns the old value of the key, or nothing; the key's slot is emptied; the count drops by one exactly when it was present |
| EntryStore.Store.Delete | vm/src/obj/objdict.rs:225-228 | an absent key is KeyError carrying the key; otherwise the key is removed |
| EntryStore.Store.Clear | vm/src/obj/objdict.rs:230-233 | no slots and a zero count afterwards |
| EntryStore.Store.PopFront | vm/src/obj/objdict.rs:376-384 | on an empty store nothing and no change; otherwise the first pair in insertion order is returned and removed, the rest keep their order |
| EntryStore.Store.NextEntry | vm/src/obj/objdict.rs:564-572 | the first live slot at index `pos` or later, with the position moved just past it; at the end nothing, with the position moved to the end of the slots |
| EntryStore.NextLiveSkips | vm/src/obj/objdict.rs:567-572 | `next_entry` passes over dead slots only: every slot before the one it returns is empty, and returning nothing means no slot from the position on is live |
| EntryStore.Store.LenFromEntryIndex | vm/src/obj/objdict.rs:574-577 | the number of live pairs at entry index `pos` or later |
| EntryStore.Store.Clone | vm/src/obj/objdict.rs:311-316 | a fresh store with the same slots and count |
| EntryStore.LookupInsert | vm/src/obj/objdict.rs:261-269 | after an insert the key maps to the new value and every other key keeps its lookup |
| EntryStore.InsertKeepsOrder | vm/src/obj/objdict.rs:294-309 | an insert appends a new pair at the end of the insertion order, or replaces a present key's value in its place |
| EntryStore.LookupRemove | vm/src/obj/objdict.rs:360-374 | after a removal the key is absent and every other key keeps its lookup |
| EntryStore.RemoveKeepsOrder | vm/src/obj/objdict.rs:376-384 | removing a key takes exactly its pair out of the insertion order |
| EntryStore.LookupInsertAll | vm/src/obj/objdict.rs:76-119 | after inserting a sequence of pairs, a key holds the value of its last occurrence, or its old value if it does not occur |
| EntryStore.InsertAllSelf | vm/src/obj/objdict.rs:121-130 | merging a store's own pairs into it leaves it unchanged |
| EntryStore.LastValueItems | vm/src/obj/objdict.rs:121-130 | in a store's pair list, the last occurrence of a key carries its stored value |
| EntryStore.LiveSlotAtOrAfter | vm/src/obj/objdict.rs:740-744 | for any index below the live count, a live slot exists at or after it |
| EntryStore.DrainIsItems | vm/src/obj/objdict.rs:564-572 | following `next_entry` from a position to the end visits exactly the live pairs from there on, in insertion order |
| DictObject.Collect | vm/src/obj/objdict.rs:95-117 | the pairs before the first failing element, in order, and that element's error |
| DictObject.CollectAt | vm/src/obj/objdict.rs:95-117 | the merge outcome is determined by the first failing element |
| DictObject.KwPairs | vm/src/obj/objdict.rs:114-116 | keyword arguments become pairs keyed by `str` objects, in order |
| DictObject.CmpPairsMeaning | vm/src/obj/objdict.rs:168-183 | when no comparison fails, the per-pair loop succeeds exactly when every key is found in the other dict with an identical or `bool_eq` value |
| DictObject.DictEqMeaning | vm/src/obj/objdict.rs:153-184 | two plain dicts are equal iff their lengths are equal and every key of one is found in the other with an identical or `bool_eq` value |
| DictObject.CmpPairsSelf | vm/src/obj/objdict.rs:168-183 | pairs that each find their own value pass the comparison through the identity check alone, whatever `bool_eq` does |
| DictObject.DictEqReflexive | vm/src/obj/objdict.rs:416-431 | a dict equals itself whenever identity is reflexive, even when every `bool_eq` call would raise |
| DictObject.UnionLookup | vm/src/obj/objdict.rs:328-358 | after `a \| b` or `a \|= b`, a key holds `b`'s value if `b` has it, else `a`'s |
| DictObject.KeywordsWin | vm/src/obj/objdict.rs:114-116 | after a successful merge, a keyword's key holds the value of its last keyword occurrence, whatever the positional source held |
| DictObject.MalformedElementStops | vm/src/obj/objdict.rs:95-112 | an element of the wrong length is TypeError "Iterator must have exactly two elements"; the pairs before it are inserted, nothing after it (keywords included) is |
| DictObject.FromKeysLookup | vm/src/obj/objdict.rs:132-146 | `fromkeys` maps exactly the listed keys, each to the one value |
| DictObject.DictIter.Next | vm/src/obj/objdict.rs:564-572 | the next live pair at or after the position, with the position moved just past it; at the end nothing, with the position moved to the end of the slots unless already past it |
| DictObject.DictIter.SizeHint | vm/src/obj/objdict.rs:574-577 | the number of live pairs still ahead |
| DictObject.Dict.constructor | vm/src/obj/objdict.rs:58-64 | a new dict with an empty store of its own |
| DictObject.Dict.Len | vm/src/obj/objdict.rs:186-189 | the number of live pairs |
| DictObject.Dict.Bool | vm/src/obj/objdict.rs:148-151 | true exactly when the dict has a pair |
| DictObject.Dict.Hash | vm/src/obj/objdict.rs:396-399 | always TypeError "unhashable type" |
| DictObject.Dict.Contains | vm/src/obj/objdict.rs:220-223 | true exactly when the key is stored; `__missing__` is not consulted |
| DictObject.Dict.SetItem | vm/src/obj/objdict.rs:255-269 | the slots become the engine insert of the key: a present key keeps its place with the new value, a new key is appended last in insertion order; every other key keeps its lookup |
| DictObject.Dict.DelItem | vm/src/obj/objdict.rs:225-228 | the slots become the old ones with exactly the key's slot emptied, so the other pairs keep their order; an absent key is KeyError carrying the key |
| DictObject.Dict.Clear | vm/src/obj/objdict.rs:230-233 | no pairs and no slots left |
| DictObject.Dict.Get | vm/src/obj/objdict.rs:281-292 | the stored value if present, else the default, else None; nothing changes and `__missing__` is not consulted |
| DictObject.Dict.InnerGetItemOption | vm/src/obj/objdict.rs:435-450 | the stored value; else, with a `__missing__` hook, its result or its error; else nothing |
| DictObject.Dict.GetItemOption | vm/src/obj/objdict.rs:467-503 | as `inner_getitem_option`, but a KeyError reads as absent, so no KeyError escapes |
| DictObject.Dict.GetItem | vm/src/obj/objdict.rs:271-279 | the stored value, else `__missing__`'s outcome, else KeyError carrying the key |
| DictObject.Dict.SetDefault | vm/src/obj/objdict.rs:294-309 | a present key returns its value and leaves the dict unchanged; an absent key gets the default (None if omitted), appended last through the engine insert, is returned, and the length grows by one |
| DictObject.Dict.Pop | vm/src/obj/objdict.rs:360-374 | a present key is removed (the old slots with exactly its slot emptied), its value returned and the length drops by one; an absent key returns the default with no change, or raises KeyError carrying the key |
| DictObject.Dict.PopItem | vm/src/obj/objdict.rs:376-384 | on an empty dict KeyError "popitem(): dictionary is empty" with no change; otherwise the 2-tuple of the first pair, whose slot is emptied while the rest keep their order |
| DictObject.Dict.Copy | vm/src/obj/objdict.rs:311-316 | a fresh plain dict with its own store holding the same slots |
| DictObject.Dict.MergeDict | vm/src/obj/objdict.rs:121-130 | every pair of the other dict inserted in its order; the other dict is unchanged, even when it is this dict |
| DictObject.Dict.MergeMapping | vm/src/obj/objdict.rs:88-93 | each listed key is inserted with its `__getitem__` value, in order, up to the first failing lookup, whose error is returned |
| DictObject.Dict.MergeIterable | vm/src/obj/objdict.rs:94-112 | each two-item element is inserted, in order, up to the first malformed one, which is TypeError |
| DictObject.Dict.MergeKeywords | vm/src/obj/objdict.rs:114-116 | every keyword pair is inserted, in order |
| DictObject.Dict.Merge | vm/src/obj/objdict.rs:76-119 | the store becomes the old one with the source's pairs and then the keywords inserted in order; the first failure stops the merge, with the pairs before it kept |
| DictObject.Dict.FromKeys | vm/src/obj/objdict.rs:132-146 | a fresh dict of the given class holding each key, in order, mapped to the value (None if omitted) |
| DictObject.Dict.Or | vm/src/obj/objdict.rs:349-358 | a fresh plain dict: this dict's pairs with the other's merged in; a non-dict is TypeError "__or__ not implemented for non-dict type" |
| DictObject.Dict.Ror | vm/src/obj/objdict.rs:338-347 | a fresh plain dict: the other's pairs with this dict's merged in; a non-dict is TypeError "__ror__ not implemented for non-dict type" |
| DictObject.Dict.Ior | vm/src/obj/objdict.rs:328-336 | the other's pairs merged into this dict in place, and this dict returned; a non-dict is TypeError with no change |
| DictObject.Dict.ComparePair | vm/src/obj/objdict.rs:169-181 | one pair of the smaller dict: a lookup error or a missing key decides the comparison, and so do an error or a false from `bool_eq` on an items comparison; identical values, or values `bool_eq` finds equal, leave the verdict to the remaining pairs |
| DictObject.Dict.CmpLoop | vm/src/obj/objdict.rs:168-183 | the loop of `inner_cmp` returns what the per-pair comparison of the smaller dict against the larger one gives |
| DictObject.Dict.InnerCmp | vm/src/obj/objdict.rs:153-184 | if `op` fails on the lengths, false with no lookups; otherwise the smaller dict's pairs (the other's on a tie) are looked up in the larger one |
| DictObject.Dict.Cmp | vm/src/obj/objdict.rs:416-431 | only `==` and `!=` against a dict are implemented, `!=` negating `==`; anything else is NotImplemented |
| DictIterators.Project | vm/src/obj/objdict.rs:773-811 | keys views yield the key, values views the value, items views the `(key, value)` tuple |
| DictIterators.DictView.Len | vm/src/obj/objdict.rs:602-605 | the dict's number of pairs |
| DictIterators.DictView.Iter | vm/src/obj/objdict.rs:597-600 | a fresh forward iterator of the view's kind at position 0, with the dict's current size as snapshot |
| DictIterators.DictView.Reversed | vm/src/obj/objdict.rs:622-625 | a fresh reverse iterator of the view's kind with its counter at 1 |
| DictIterators.DictView.Cmp | vm/src/obj/objdict.rs:627-653 | against a view of the same kind, `inner_cmp` with `op`, comparing values except for keys views; anything else is NotImplemented |
| DictIterators.ViewOf | vm/src/obj/objdict.rs:240-253 | `keys()`, `values()` and `items()` give a fresh view of the dict |
| DictIterators.DictIterKeys | vm/src/obj/objdict.rs:235-238 | iterating a dict gives a forward key iterator at position 0 |
| DictIterators.DictReversedKeys | vm/src/obj/objdict.rs:410-413 | `reversed(dict)` gives a reverse key iterator with its counter at 1 |
| DictIterators.ViewIterator.constructor | vm/src/obj/objdict.rs:671-678 | position 0 and the dict's size at creation as snapshot |
| DictIterators.ViewIterator.Next | vm/src/obj/objdict.rs:680-696 | a changed size is RuntimeError "dictionary changed size during iteration", position unchanged; otherwise the next live pair at or after the position, projected, with the position moved just past it; at the end StopIteration, position unchanged |
| DictIterators.ViewIterator.LengthHint | vm/src/obj/objdict.rs:703-706 | the number of live pairs at or after the position |
| DictIterators.ForwardVisitsItems | vm/src/obj/objdict.rs:680-696 | on an unchanged dict, the forward steps from position 0 visit exactly its pairs in insertion order |
| DictIterators.ReverseViewIterator.constructor | vm/src/obj/objdict.rs:724-731 | counter 1 and the dict's size at creation as snapshot |
| DictIterators.ReverseViewIterator.Next | vm/src/obj/objdict.rs:733-752 | a changed size is RuntimeError with the counter unchanged; otherwise, while the counter is at most `len`, a live slot exists at or after entry index `len - counter` and its pair is projected, with the counter incremented; past `len` the counter is parked at `isize::MAX` and StopIteration is raised |
| DictIterators.ReverseViewIterator.LengthHint | vm/src/obj/objdict.rs:759-762 | the number of live pairs at or after entry index equal to the counter |
| DictIterators.ReverseExactWithoutHoles | vm/src/obj/objdict.rs:740-744 | with no deleted slots, the k-th reverse step yields the k-th pair from the end |
| DictIterators.ReverseSkewedByHole | vm/src/obj/objdict.rs:740-744 | with a deleted slot in front, the first reverse step yields the first pair rather than the last |
| DictIterators.PrevLive | vm/src/obj/objdict.rs:733-752 | as intended: the last live slot before an index, every slot between being dead |
| DictIterators.ReverseWalkIsReversedItems | vm/src/obj/objdict.rs:733-752 | as intended: walking back from a slot index yields the live pairs before it in reverse insertion order |
| DictIterators.ReverseWalkExact | vm/src/obj/objdict.rs:733-752 | as intended: the k-th step of the backward walk yields the k-th pair from the end, dead slots or not |
| OsErrors.IoErrorToException | vm/src/stdlib/os.rs:141-165 | NotFound, PermissionDenied, AlreadyExists and WouldBlock give FileNotFoundError, PermissionError, FileExistsError and BlockingIOError; for other kinds BlockingIOError iff the errno is EAGAIN, EALREADY, EWOULDBLOCK or EINPROGRESS, else OSError; `errno` is the raw errno or None |
| OsErrors.NixErrorToException | vm/src/stdlib/os.rs:167-192 | an invalid path is FileNotFoundError, invalid UTF-8 UnicodeError, an unsupported operation RuntimeError, all without errno; a system error is PermissionError iff EPERM, else OSError, with `errno` set |
| OsPermissions.GetPermissions | vm/src/stdlib/os.rs:1141-1147 | readable, writable and executable iff bit 4, 2 and 1 are set |
| OsPermissions.PermissionsRoundTrip | vm/src/stdlib/os.rs:1141-1147 | a triple's permissions give back the triple, and the reverse |
| OsPermissions.GetRightPermission | vm/src/stdlib/os.rs:1149-1173 | a failing group-list read fails the call whoever owns the file; the owner triple (S_IRUSR, S_IWUSR, S_IXUSR) applies to the owner even if the group also matches, else the group triple if the file's group is the caller's, else the others triple |
| OsPermissions.Access | vm/src/stdlib/os.rs:1202-1234 | a mode with bits outside R_OK, W_OK and X_OK is ValueError; F_OK gives only whether the metadata could be read; else metadata and group-list errors are raised, and the result is true iff every requested bit is set in the caller's triple |
| OsPermissions.AttributesToMode | vm/src/stdlib/os.rs:2328-2346 | as written: correct file type, but a read-only file comes out owner-writable, and a writable one has the sticky bit and is not owner-readable |
| OsPermissions.DecimalMasksMisstateAccess | vm/src/stdlib/os.rs:2328-2346 | the concrete read-only and writable regular files that show the decimal masks' effect |
| OsPermissions.AttributesToModeIntended | vm/src/stdlib/os.rs:2328-2346 | with octal masks: S_IFDIR or S_IFREG; no setuid, setgid or sticky bit; all three classes get the same triple: read always, write iff not read-only, execute iff a directory |
| OsCalls.MakePath | vm/src/stdlib/os.rs:129-139 | a `dir_fd` is OSError "dir_fd not supported yet", otherwise the path as given |
| OsCalls.OpenOptionsFor | vm/src/stdlib/os.rs:312-336 | read-only, write-only and read-write access modes give the POSIX options, and the invalid mode 3 counts as write-only; append iff O_APPEND; create-new iff O_CREAT and O_EXCL, create iff O_CREAT alone |
| OsCalls.Open | vm/src/stdlib/os.rs:298-350 | `dir_fd` is refused before the file is touched; otherwise the opener's descriptor, or its error mapped as an `io::Error` |
| OsCalls.AsI64 | vm/src/stdlib/os.rs:810 | an `int` within the `i64` range, else nothing |
| OsCalls.ParseTup | vm/src/stdlib/os.rs:805-812 | a pair exactly when the tuple has two `i64`-sized ints |
| OsCalls.TruncDiv | vm/src/stdlib/os.rs:824 | the quotient rounded toward zero, with its bounds in both signs |
| OsCalls.UtimeTimes | vm/src/stdlib/os.rs:813-838 | `times` as given or TypeError; `ns` divided by 10^9 toward zero or TypeError; neither gives the current time; both give ValueError |
| OsCalls.UtimeNsTowardZero | vm/src/stdlib/os.rs:819-825 | nanosecond times stay in the `i64` range, and within one second of the epoch they become 0 |
| OsCalls.ExecvArgs | vm/src/stdlib/os.rs:1538-1561 | OK iff the path has no NUL, argv converts to C strings, and argv has a non-empty first element; the path's ValueError, then the conversion's error, then the two argv ValueErrors, in the source's order |
| OsCalls.ConvertIdAsWritten | vm/src/stdlib/os.rs:1350-1364 | as written: an id of 0 or more becomes its low 32 bits, -1 means unchanged, anything below is OSError |
| OsCalls.ChownIdWraps | vm/src/stdlib/os.rs:1350-1356 | uid 2^32 becomes uid 0, and 2^32 + 1000 becomes 1000 |
| OsCalls.ChownIdsAsWritten | vm/src/stdlib/os.rs:1347-1364 | the uid is checked before the gid; below -1 is OSError; -1 means unchanged; other ids are cut to their low 32 bits |
| OsCalls.ChownUidWrapsToRoot | vm/src/stdlib/os.rs:1350-1351 | uid 2^32 with gid 0 gives the file to uid 0 as written, and is OverflowError with the range check |
| OsCalls.ChownIdsAgreeInRange | vm/src/stdlib/os.rs:1347-1364 | on ids up to the largest `u32` the source and the range-checked version give the same result |
| OsCalls.ConvertId | vm/src/stdlib/os.rs:1350-1364 | as intended: an id is accepted iff it fits in `u32` (and is then itself), -1 means unchanged, below -1 is OSError, above `u32` is OverflowError |
| OsCalls.ChownIds | vm/src/stdlib/os.rs:1347-1364 | as intended, over `ConvertId`: uid errors come before gid errors; accepted ids are the given ids, -1 giving "unchanged"; ids above `u32` are OverflowError |
| OsCalls.EnvEntry | vm/src/stdlib/os.rs:1913-1939 | OK iff the key has no NUL and no `=` and the value no NUL; the errors in that order; a good entry has no NUL |
| OsCalls.EnvEntryRoundTrip | vm/src/stdlib/os.rs:1932-1935 | splitting a built entry at its first `=` gives back the key and the value |
| OsCalls.EnvpMeaning | vm/src/stdlib/os.rs:1913-1939 | the walk succeeds iff every pair's entry does, and then gives one entry per pair in iteration order; otherwise it gives the error of the first failing pair |
| OsCalls.EnvEntryOf | vm/src/stdlib/os.rs:1916-1935 | one pair's entry: the key converted before the value, then checked and joined |
| OsCalls.EnvpFromDict | vm/src/stdlib/os.rs:1913-1939 | walking the dict gives exactly the entries of its pairs in insertion order, or the first failing pair's error |
| OsModule.ScandirIterator.Next | vm/src/stdlib/os.rs:578-600 | once exhausted, StopIteration with the listing untouched; else an empty listing sets exhausted and stops; else the next read becomes a `DirEntry` or its mapped error |
| OsModule.ScandirIterator.Close | vm/src/stdlib/os.rs:601-604 | exhausted from then on, listing untouched |
| OsModule.ScandirIterator.Exit | vm/src/stdlib/os.rs:616-619 | the same as `close` |
| OsModule.SupportSets | vm/src/stdlib/os.rs:948-973 | a function is in a supports set iff one of its entries states that ability as `Some(true)`; every listed function becomes a module attribute |

## Left out

- The hash-table engine (`dictdatatype`): hashing, probing, tombstones and resizing. It is represented only by the abstract `EntryStore.Store`. Its `KeyError` for a key whose hash or `__eq__` fails cannot arise: keys are compared by value.
- Errors from `__hash__`, `__eq__` and iteration of foreign objects. Examples: `get_iter` of a merge source, a failing element iterator, a failing `keys()` call.
- Reentrancy: an `__eq__` or `__missing__` that mutates the dict during the call.
- `repr`, `sizeof`, `to_attributes`/`from_attributes`, `contains_key`, class registration, and the `ReprGuard`.
- DictObject.Dict.GetItemOption: does not model a subclass that overrides `__getitem__`. The class's `__missing__` hook is modelled; an override of `__getitem__` itself is a foreign call.
- Thread-safety of the `AtomicCell` positions. They are plain fields.
- DictIterators.ReverseViewIterator.Next: the `usize` counter's wrap-around is not modelled. It cannot occur while the dict holds fewer than `isize::MAX` pairs, as any Rust `Vec` does: then a parked counter fails `count <= len` and is parked again, so it never exceeds `isize::MAX + 1`. The model does not state this bound on the number of pairs.
- The OS calls themselves, represented by their results: `fs::metadata`, `getuid`, `getgroups`, `open`, `utime::set_file_times`, `chown`/`fchownat`, `execv`, and the directory listing.
- The `isize` conversion in `chown`. Its ids are taken as already-converted `Isize` values.
- The argument conversions of `open` and `access`, which run before the modelled checks, and the conversion of `execv`'s argv elements to C strings, which runs between the path check and the argv checks and is a parameter of `OsCalls.ExecvArgs` (its outcome: the converted elements, holding no NUL, or its error). `access` takes its mode as a `u8`, so a mode outside 0..255 is refused by the conversion; `OsPermissions.Access` starts after it, with a `bv8` mode. `PyPathLike` and `__fspath__` are a parameter in `envp_from_dict`.
- The messages of OS exceptions, which are the `Display` text of the Rust error. `nix::Error::UnsupportedOperation` is modelled as a RuntimeError without its message.
- The current time in `utime`, which is a parameter.
- Windows and other `cfg` variants, apart from `attributes_to_mode`.
- OsModule.SupportSets: holds function names rather than function objects.
- EntryStore.Store.PopFront: the engine's `pop_front` is not part of this model; it is assumed to remove and return the first live pair in insertion order, emptying its slot in place so that a dead slot is left at the front.
- EntryStore.Store.Size and EntryStore.Store.HasChangedSize: the engine's `size()` snapshot and `has_changed_size` are not part of this model; the snapshot is assumed to be the pair (number of entry slots, number of live pairs), and a changed size to mean that this pair differs.
- EntryStore.Store.NextEntry: the engine's `next_entry` is not part of this model; it is assumed to return the first live pair at entry index `pos` or later and move `pos` just past it, and at the end to leave `pos` at the number of entry slots, or where it was if already beyond.
- EntryStore.Store.LenFromEntryIndex: the engine's `len_from_entry_index` is not part of this model; it is assumed to count the live pairs at entry index `pos` or later, with `pos` clamped to the number of slots (the clamp defines the reverse iterator's hint once its counter is parked at `isize::MAX`).
- DictIterators.ReverseViewIterator.Next keeps the as-written reverse order; the backward walk `DictIterators.ReverseWalk` with its lemmas states the intended order, and no iterator class is built on it.

## Findings

| source | as written | input that shows it | evidently intended | confidence | as-written member | corrected member |
|---|---|---|---|---|---|---|
| vm/src/stdlib/os.rs:2328-2346 | the masks `0111`, `0444`, `0666` are decimal in Rust (octal 0157, 0674, 01232) | attribute 1, a read-only regular file: mode 0o100674, which is owner-writable. Attribute 0, a writable file: mode 0o101232, which sets the sticky bit and is not owner-readable (`DecimalMasksMisstateAccess`) | the octal masks of the C original: 0o100444 and 0o100666 | high; not executed | OsPermissions.AttributesToMode | OsPermissions.AttributesToModeIntended |
| vm/src/stdlib/os.rs:1350-1364 | `uid as u32` keeps only the low 32 bits | uid 2^32 with gid 0 is passed to the system as uid 0, the superuser (`ChownIdWraps`, `ChownUidWrapsToRoot`) | ids beyond `u32` rejected with OverflowError | medium; not executed | OsCalls.ChownIdsAsWritten | OsCalls.ChownIds |
| vm/src/obj/objdict.rs:740-744 | the k-th reverse step reads the first live slot at or after entry index `len - k`, although deleted slots make entry indices larger than live positions | slots `[dead, (a, x), (b, y)]`: the first reverse step yields `(a, x)` instead of `(b, y)` (`ReverseSkewedByHole`) | the k-th step yields the k-th pair from the end | high; not executed | DictIterators.ReverseSkewedByHole | DictIterators.ReverseWalkExact |
