# Observable containers and application lifecycle of NiceGUI, in Dafny

This project models two parts of NiceGUI.

- **`nicegui/observables.py`.** `ObservableDict`, `ObservableList` and
  `ObservableSet` extend the built-in containers. Each overridden mutator
  first performs the container operation, converting every inserted dict,
  list or set with `make_observable` so that it becomes a wrapper bound to the
  same `on_change` handler. It then calls `events.handle_event(on_change, None)`
  exactly once. Operators that build a new container (`|`, `+`, `&`, `-`, `^`)
  delegate to the base class: they return plain containers and notify nobody.
- **`nicegui/app.py`.** The `App` lifecycle: the four-state `State` machine
  with its `is_*` properties, `start`/`stop`, the handler registries,
  `remove_route`, and the `"/"` guard of `add_static_files`.

Layout:

| file | module | models |
|---|---|---|
| `outcomes.dfy` | `Outcomes` | the exceptions raised (`KeyError`, `ValueError`, `IndexError`, `TypeError`, `RuntimeError`) as `Result`/`Outcome` values |
| `values.dfy` | `Values` | contained values, Python `==`, `make_observable` and the deep-wrapping invariant |
| `ordered_dicts.dfy` | `OrderedDicts` | the insertion-ordered dict operations the dict wrapper delegates to |
| `ordering.dfy` | `Ordering` | the order `list.sort` uses on numbers and strings |
| `observable_dict.dfy` | `ObservableDicts` | class `ObservableDict` |
| `observable_list.dfy` | `ObservableLists` | class `ObservableList` |
| `observable_set.dfy` | `ObservableSets` | class `ObservableSet` |
| `app.dfy` | `Application` | class `App` |

How the model is built:

- **Values.** A contained value is a `Value`:
  - `Scalar(atom)`, where an `Atom` is `None`, a number or a string;
  - `Dict(wrap, entries)`;
  - `List(wrap, items)`;
  - `Set(wrap, elems)`.

  `wrap` is `Plain` for a built-in container and `Observed(t)` for a wrapper
  bound to handler `t`. Dict keys and set elements must be hashable, so they
  are atoms. This is why converting a set's elements never changes them.
- **Conversion.** `MakeObservable(v, t)` is `make_observable`. `DeepWrapped(v, t)`
  says that `v` and every dict, list or set nested in it through dicts and
  lists is a wrapper bound to `t`. Values are built only from dicts, lists,
  sets and atoms. `make_observable` does not look inside tuples or other
  objects, so this invariant says nothing about containers held by those.
- **Wrappers.** Each wrapper is a class with these members:
  - its contents: `entries: seq<Entry>` in insertion order, `items: seq<Value>`,
    or `elems: set<Atom>`;
  - a constant `onChange: Target`;
  - a ghost counter `notifications`, which counts the calls to `handle_event`.

  Each mutator's postcondition gives the new contents as a function of the old
  ones, and says how much the counter grows: by one on success, or on every
  call for the operations that always notify. A failing call leaves both
  unchanged. The dict and list classes keep `Valid()` (the deep-wrapping
  invariant of their contents) across every method.
- **Non-mutating operators.** They are methods without a `modifies` clause, so
  neither the contents nor the counter can change. They return a `Plain` value.
- **Lifecycle.** `App` keeps its handler lists as sequences. Running handlers
  appends `(handler, state)` pairs to a ghost trace `invoked`.

Two error paths of the wrappers come from the built-in methods they call first:

- `set.remove` of an absent element raises `KeyError` (observables.py:122-124).
- `list.sort` raises `TypeError` without notifying when two items cannot be
  compared (observables.py:85-87), since the notification comes after the call.

## Model

| member | source | states |
|---|---|---|
| `Values.MakeObservable` | nicegui/observables.py:203-210 | The result is deep-wrapped with target `t`, and has the same contents as the input up to wrapping. A scalar is returned unchanged. A dict, list or set becomes a wrapper bound to `t`, even when it already was a wrapper. Well-formedness (unique keys) is preserved. |
| `Values.RewrapRebinds` | nicegui/observables.py:203-210 | Converting an already converted value with a new target gives the same value as converting the original: only the last target counts. |
| `Values.RewrapSameTarget` | nicegui/observables.py:203-210 | Re-converting a value that is already deep-wrapped for `t` gives an equal value (in the program, a fresh copy). |
| `Values.MakeObservablePyEq` | nicegui/observables.py:203-210 | A converted value compares `==` to the value it was made from. |
| `Values.PyEq` | nicegui/observables.py:72-74 | Python's `==` as `list.remove` uses it: wrappers equal the plain containers they extend, dicts compare as mappings regardless of order, lists item by item, sets by membership. Related to `make_observable` by `MakeObservablePyEq`. |
| `Values.SameContentsPyEq` | nicegui/observables.py:72-74 | Values that differ only in their wrappers are `==` in Python, which is the equality that `list.remove` uses. |
| `Values.ConvertEntries` | nicegui/observables.py:8-9 | The dict constructor's loop keeps every key and its position and stores deep-wrapped values. Together these make up `make_observable` of the dict. |
| `Values.ConvertAll` | nicegui/observables.py:56-57 | The list constructor's loop keeps the length and the contents up to wrapping, deep-wraps every item, and together makes up `make_observable` of the list. |
| `OrderedDicts.LookupPresent` | nicegui/observables.py:39-41 | A key is found exactly when it is one of the dict's keys. This is the condition under which `del` raises `KeyError`. |
| `OrderedDicts.LookupAt` | nicegui/observables.py:30-33 | With unique keys, looking up the key of an entry yields that entry's value. This is the value `setdefault` returns for a present key. |
| `OrderedDicts.PutLookup` | nicegui/observables.py:35-37 | After `d[k] = v`, `k` maps to `v` and every other key maps to what it did before. |
| `OrderedDicts.PutKeys` | nicegui/observables.py:35-37 | `d[k] = v` keeps every existing key in its position, and appends `k` only when it is new. |
| `OrderedDicts.PutUnique` | nicegui/observables.py:35-37 | `d[k] = v` keeps keys unique. |
| `OrderedDicts.PutMembers` | nicegui/observables.py:35-37 | `d[k] = v` introduces no entry other than `k: v`. |
| `OrderedDicts.DeleteLookup` | nicegui/observables.py:39-41 | After deleting `k`, `k` is absent and every other key maps to what it did before. |
| `OrderedDicts.Lookup` | nicegui/observables.py:12-15 | The value the dict stores under a key, or none: the lookup `pop`, `setdefault` and `del` rely on. Characterized by `LookupPresent` and `LookupAt`. |
| `OrderedDicts.Put` | nicegui/observables.py:35-37 | The built-in `d[k] = v` on an insertion-ordered dict. Characterized by `PutLookup`, `PutKeys`, `PutUnique` and `PutMembers`. |
| `OrderedDicts.Delete` | nicegui/observables.py:39-41 | The built-in `del d[k]`. Characterized by `DeleteLookup`, `DeleteKeys`, `DeleteAt`, `DeleteAbsent` and `DeleteMembers`. |
| `OrderedDicts.Merge` | nicegui/observables.py:22-24 | The built-in `d.update(o)`, writing `o`'s entries in `o`'s order. Characterized by `MergeLookup`, `MergeKeys`, `MergeKeyOrder` and `MergeMembers`. |
| `OrderedDicts.DeleteAt` | nicegui/observables.py:39-41 | With unique keys, deleting `k` removes exactly the position holding `k` and keeps every other entry in its order. |
| `OrderedDicts.DeleteAbsent` | nicegui/observables.py:12-15 | Removing an absent key leaves the entries as they are, which is what `pop(k, d)` does to the dict when `k` is missing. |
| `OrderedDicts.DeleteKeys` | nicegui/observables.py:39-41 | Deleting `k` keeps keys unique and keeps all other keys. It removes one entry exactly when `k` was present. |
| `OrderedDicts.DeleteMembers` | nicegui/observables.py:39-41 | Deleting introduces no entry. |
| `OrderedDicts.MergeLookup` | nicegui/observables.py:22-24 | After `update(o)`, a key of `o` maps to its value in `o`, and every other key maps to what it did before. |
| `OrderedDicts.MergeKeys` | nicegui/observables.py:22-24 | `update(o)` keeps the existing keys in their order as a prefix, ends with exactly the keys of both dicts, and keeps keys unique. |
| `OrderedDicts.MergeKeyOrder` | nicegui/observables.py:22-24 | After `update(o)`, the keys are the old keys in their order, followed by the keys of `o` the dict did not have, in `o`'s order and each once. |
| `OrderedDicts.MergeMembers` | nicegui/observables.py:22-24 | After `update(o)`, every entry comes from the dict or from `o`. |
| `OrderedDicts.PopLastIsDelete` | nicegui/observables.py:17-20 | `popitem` removes the most recently inserted entry. This is the same as deleting its key. |
| `ObservableDicts.PopLastWrapped` | nicegui/observables.py:17-20 | Dropping the last entry of valid entries is deleting its key, and the result still satisfies the invariant. |
| `ObservableDicts.EntriesWrappedIsDeepWrapped` | nicegui/observables.py:6-10 | The dict wrapper's invariant on its entries is exactly the deep-wrapping invariant (plus unique keys) of the dict as a value. |
| `ObservableDicts.ConvertedEntriesWrapped` | nicegui/observables.py:6-10 | Converting the values of any dict yields entries that satisfy the invariant. |
| `ObservableDicts.ObservableDict.constructor` | nicegui/observables.py:6-10 | The loop converts every value in place. The result is `make_observable` of `data` bound to `on_change` and satisfies the invariant, and construction fires no notification. |
| `ObservableDicts.ObservableDict.Pop` | nicegui/observables.py:12-15 | Returns the stored value, or the default (`None` unless given) when `k` is absent. Removes `k`, and notifies once even when nothing was removed. |
| `ObservableDicts.ObservableDict.PopItem` | nicegui/observables.py:17-20 | On an empty dict: `KeyError`, nothing changes and there is no notification. Otherwise returns the last entry, removes it and notifies once. |
| `ObservableDicts.ObservableDict.Update` | nicegui/observables.py:22-24 | With one positional argument: merges the converted operand into the dict, with one notification for the whole batch. With none: the dict is unchanged and it still notifies once. With more than one, `dict(*args)` raises `TypeError` before anything changes or is notified. |
| `ObservableDicts.ObservableDict.Clear` | nicegui/observables.py:26-28 | Empties the dict and notifies once, even when it was empty. |
| `ObservableDicts.ObservableDict.SetDefault` | nicegui/observables.py:30-33 | For a present key: returns the stored value and leaves the dict unchanged. For an absent key: inserts the converted default and returns it. Notifies once in both cases. |
| `ObservableDicts.ObservableDict.SetItem` | nicegui/observables.py:35-37 | Stores the converted value, so `k` maps to a wrapper bound to the receiver's handler, and notifies once. |
| `ObservableDicts.ObservableDict.DelItem` | nicegui/observables.py:39-41 | For an absent key: `KeyError`, nothing changes and there is no notification. Otherwise removes the key and notifies once. |
| `ObservableDicts.ObservableDict.Or` | nicegui/observables.py:43-44 | `d \| other` returns the plain merged dict, with the operand unconverted. It changes nothing and notifies nobody. |
| `ObservableDicts.ObservableDict.IOr` | nicegui/observables.py:46-49 | `d \|= other` merges the converted operand, notifies once and returns the receiver itself. |
| `ObservableDicts.ObservableDict.PutWrapped` | nicegui/observables.py:35-37 | Writing a deep-wrapped value keeps the invariant. |
| `ObservableDicts.ObservableDict.MergeConverted` | nicegui/observables.py:46-47 | Merging a converted operand keeps the invariant. |
| `ObservableLists.ItemsWrappedIsDeepWrapped` | nicegui/observables.py:54-58 | The list wrapper's invariant on its items is exactly the deep-wrapping invariant of the list as a value. |
| `ObservableLists.ConvertedItemsWrapped` | nicegui/observables.py:54-58 | Converting the items of any list yields items that satisfy the invariant. |
| `ObservableLists.InsertPosition` | nicegui/observables.py:68-70 | The position `insert` uses: a negative index counts from the end, and an index outside the list is clamped to its nearest end. |
| `ObservableLists.Resolve` | nicegui/observables.py:76-79 | A subscript denotes a position exactly when it lies in `-n .. n-1`. The position is congruent to the index modulo `n`. |
| `ObservableLists.IndexOf` | nicegui/observables.py:72-74 | The first position whose item is `==` to the value. None means no item is `==` to it. |
| `ObservableLists.RemoveAt` | nicegui/observables.py:72-74 | Removing one position shortens the list by one and introduces no item. |
| `ObservableLists.Reversed` | nicegui/observables.py:89-91 | The order `list.reverse` produces. Characterized by `ReversedInvolution`. |
| `ObservableLists.ReversedInvolution` | nicegui/observables.py:89-91 | Reversing twice restores the list, and reversing keeps every item (a permutation). |
| `ObservableLists.ObservableList.constructor` | nicegui/observables.py:54-58 | The loop converts every item in place. The result is `make_observable` of `data` bound to `on_change` and satisfies the invariant, and construction fires no notification. |
| `ObservableLists.ObservableList.Append` | nicegui/observables.py:60-62 | Adds the converted item at the end and notifies once. |
| `ObservableLists.ObservableList.Extend` | nicegui/observables.py:64-66 | Adds all converted items at the end, with one notification for the batch. |
| `ObservableLists.ObservableList.Insert` | nicegui/observables.py:68-70 | Puts the converted item at the clamped position and notifies once. |
| `ObservableLists.ObservableList.Remove` | nicegui/observables.py:72-74 | Drops the first item that is `==` to the value and notifies once. When there is none: `ValueError`, nothing changes and there is no notification. |
| `ObservableLists.ObservableList.Pop` | nicegui/observables.py:76-79 | Removes and returns the item at the index (default last) and notifies once. On an empty list or an out-of-range index: `IndexError`, nothing changes and there is no notification. |
| `ObservableLists.ObservableList.Clear` | nicegui/observables.py:81-83 | Empties the list and notifies once, even when it was empty. |
| `ObservableLists.ObservableList.Sort` | nicegui/observables.py:85-87 | For comparable items: sorts ascending and notifies once, even if the order was already sorted. Otherwise: `TypeError`, nothing changes and there is no notification. |
| `ObservableLists.ObservableList.Reverse` | nicegui/observables.py:89-91 | Reverses the list and notifies once. |
| `ObservableLists.ObservableList.DelItem` | nicegui/observables.py:93-95 | Removes the item at the index and notifies once. For an out-of-range index: `IndexError`, nothing changes and there is no notification. |
| `ObservableLists.ObservableList.SetItem` | nicegui/observables.py:97-99 | Stores the converted item at the index and notifies once. For an out-of-range index: `IndexError`, nothing changes and there is no notification. |
| `ObservableLists.ObservableList.Add` | nicegui/observables.py:101-102 | `l + other` returns the plain concatenation, with the operand unconverted. It changes nothing and notifies nobody. |
| `ObservableLists.ObservableList.IAdd` | nicegui/observables.py:104-107 | `l += other` extends the list by the converted operand, notifies once and returns the receiver itself. |
| `Ordering.Sort` | nicegui/observables.py:85-87 | The ascending order `list.sort` produces. `SortCorrect` proves that it is sorted and a permutation of its input. |
| `Ordering.SortCorrect` | nicegui/observables.py:85-87 | Whatever `sort` accepts comes out in ascending order, as a permutation of its input. |
| `Ordering.SortSorted` | nicegui/observables.py:85-87 | A list of only numbers or only strings sorts into ascending order. |
| `Ordering.SortPermutation` | nicegui/observables.py:85-87 | Sorting keeps every item with its multiplicity. |
| `ObservableSets.IntersectAll` | nicegui/observables.py:143-145 | An element survives `intersection_update(*others)` exactly when it is in every operand. |
| `ObservableSets.SubtractAll` | nicegui/observables.py:147-149 | An element survives `difference_update(*others)` exactly when it is in no operand. |
| `ObservableSets.SymmetricDifference` | nicegui/observables.py:151-153 | An element is in the result exactly when it is in one of the two sets but not both. |
| `ObservableSets.Elements` | nicegui/observables.py:139-141 | `set(iterable)` holds exactly the elements the iterable yields. |
| `ObservableSets.SetConversionKeepsElements` | nicegui/observables.py:112-116 | Converting a set copies it into a wrapper, and converting each of its elements returns it unchanged. |
| `ObservableSets.ObservableSet.constructor` | nicegui/observables.py:112-116 | The loop re-adds every converted element, which leaves the contents equal to `data`. The result is `make_observable` of `data` bound to `on_change`, and construction fires no notification. |
| `ObservableSets.ObservableSet.Add` | nicegui/observables.py:118-120 | Adds the element and notifies once. |
| `ObservableSets.ObservableSet.Remove` | nicegui/observables.py:122-124 | Removes the element and notifies once. For an absent element: `KeyError`, nothing changes and there is no notification. |
| `ObservableSets.ObservableSet.Discard` | nicegui/observables.py:126-128 | Removes the element if present, and notifies once even when it was absent. |
| `ObservableSets.ObservableSet.Pop` | nicegui/observables.py:130-133 | Removes and returns some element and notifies once. On an empty set: `KeyError`, nothing changes and there is no notification. |
| `ObservableSets.ObservableSet.Clear` | nicegui/observables.py:135-137 | Empties the set and notifies once, even when it was empty. |
| `ObservableSets.ObservableSet.Update` | nicegui/observables.py:139-141 | With at most one iterable: adds its elements and notifies once. With more than one, `set(*s)` raises `TypeError` before anything changes or is notified. |
| `ObservableSets.ObservableSet.IntersectionUpdate` | nicegui/observables.py:143-145 | Keeps the elements common to all operands and notifies once, even when nothing was removed. |
| `ObservableSets.ObservableSet.DifferenceUpdate` | nicegui/observables.py:147-149 | Removes the elements of every operand and notifies once, even when nothing was removed. |
| `ObservableSets.ObservableSet.SymmetricDifferenceUpdate` | nicegui/observables.py:151-153 | With exactly one operand: replaces the contents by the symmetric difference and notifies once. With zero or several operands, the built-in method raises `TypeError` before anything changes or is notified. |
| `ObservableSets.ObservableSet.Or` | nicegui/observables.py:155-156 | `s \| o` returns the plain union. It changes nothing and notifies nobody. |
| `ObservableSets.ObservableSet.IOr` | nicegui/observables.py:158-161 | `s \|= o` sets the contents to the union, notifies once and returns the receiver. |
| `ObservableSets.ObservableSet.And` | nicegui/observables.py:163-164 | `s & o` returns the plain intersection. It changes nothing and notifies nobody. |
| `ObservableSets.ObservableSet.IAnd` | nicegui/observables.py:166-169 | `s &= o` sets the contents to the intersection, notifies once and returns the receiver. |
| `ObservableSets.ObservableSet.Sub` | nicegui/observables.py:171-172 | `s - o` returns the plain difference. It changes nothing and notifies nobody. |
| `ObservableSets.ObservableSet.ISub` | nicegui/observables.py:174-177 | `s -= o` sets the contents to the difference, notifies once and returns the receiver. |
| `ObservableSets.ObservableSet.Xor` | nicegui/observables.py:179-180 | `s ^ o` returns the plain symmetric difference. It changes nothing and notifies nobody. |
| `ObservableSets.ObservableSet.IXor` | nicegui/observables.py:182-185 | `s ^= o` sets the contents to the symmetric difference, notifies once and returns the receiver. |
| `Application.App.constructor` | nicegui/app.py:26-37 | A new app is `STOPPED`, with empty startup, shutdown, connect and disconnect lists. Its exception list holds only the default `log.exception` handler. |
| `Application.App.IsStarting` | nicegui/app.py:39-42 | `is_starting`: the state is `STARTING`. Related to the other three by `ExactlyOneStatus`. |
| `Application.App.IsStarted` | nicegui/app.py:44-47 | `is_started`: the state is `STARTED`. This is the guard of `OnStartup`. |
| `Application.App.IsStopping` | nicegui/app.py:49-52 | `is_stopping`: the state is `STOPPING`. |
| `Application.App.IsStopped` | nicegui/app.py:54-57 | `is_stopped`: the state is `STOPPED`, as it is after construction and after `Stop`. |
| `Application.App.ExactlyOneStatus` | nicegui/app.py:39-57 | Exactly one of `is_starting`, `is_started`, `is_stopping` and `is_stopped` holds, each mirroring one `State`. |
| `Application.App.Start` | nicegui/app.py:59-65 | Runs every startup handler in registration order while `STARTING`, then ends `STARTED`. No list changes. |
| `Application.App.Stop` | nicegui/app.py:67-73 | Runs every shutdown handler in registration order while `STOPPING`, then ends `STOPPED`. No list changes. |
| `Application.App.RunAll` | nicegui/app.py:63-64 | The loop invokes each handler once, in order, and records each with the current state. |
| `Application.App.OnConnect` | nicegui/app.py:75-80 | Appends the handler to the connect list and changes nothing else. |
| `Application.App.OnDisconnect` | nicegui/app.py:82-87 | Appends the handler to the disconnect list and changes nothing else. |
| `Application.App.OnStartup` | nicegui/app.py:89-96 | Once `STARTED`: `RuntimeError` and the list is unchanged. In every other state, `STARTING` included, appends the handler. |
| `Application.App.OnShutdown` | nicegui/app.py:98-103 | Appends the handler to the shutdown list and changes nothing else. |
| `Application.App.OnException` | nicegui/app.py:105-110 | Appends the handler to the exception list and changes nothing else. |
| `Application.App.RemoveRoute` | nicegui/app.py:233-235 | Keeps exactly the routes whose path differs from `path`, in their original order. |
| `Application.WithoutPath` | nicegui/app.py:235 | The comprehension `remove_route` assigns: the routes whose path differs from `path`. Characterized by the four lemmas below. |
| `Application.WithoutPathMembers` | nicegui/app.py:233-235 | A route survives exactly when its path differs from `path`; routes without a path always survive. |
| `Application.WithoutPathConcat` | nicegui/app.py:233-235 | Filtering distributes over concatenation, so the original order is kept. |
| `Application.WithoutPathIdempotent` | nicegui/app.py:233-235 | Removing the same path twice is the same as removing it once. |
| `Application.WithoutAbsentPath` | nicegui/app.py:233-235 | Removing a path no route has leaves the routes unchanged. |
| `Application.App.AddStaticFiles` | nicegui/app.py:146-148 | `"/"` raises `ValueError` before anything is mounted. Any other path is handed to the framework to mount. |

## Left out

- `events.handle_event` belongs to another module and is not part of this model. Each call to it is modelled as one increment of the ghost `notifications` counter of the calling wrapper. Handler arity inspection, asynchronous scheduling, and handlers that mutate the container re-entrantly are not modelled.
- Tuples and other objects: `make_observable` returns them unchanged and does not look inside (observables.py:210). A dict, list or set held in a tuple therefore stays plain, and mutating it notifies nobody. The model has no tuples, so `DeepWrapped` and the wrapping results cover only values built from dicts, lists, sets and atoms.
- Aliasing of nested wrappers: nested containers are values, not shared objects. Mutating `root["a"]` in place through the alias is not modelled. What is modelled is only that every nested dict, list or set is tagged `Observed(t)` with the root's handler `t`. The model does not turn a nested value into a wrapper object with methods of its own.
- Python scalars other than `None`, integers and strings (floats, booleans, frozensets, arbitrary objects) are not modelled. Numeric cross-type equality (`1 == 1.0 == True`) is not modelled either.
- `ObservableLists.ObservableList.Sort`: models only the default ascending order on numbers or strings. It does not model `key=`/`reverse=` arguments. It also does not model sorting lists of lists or tuples (which Python compares lexicographically) or of sets (which Python compares by inclusion): the model reports `TypeError` for those, where Python sorts and notifies once. After a failed comparison, the contents are modelled as unchanged; CPython may leave the list partially reordered.
- List slice assignment and slice deletion: only single indexes are modelled.
- Operands of other types are not modelled:
  - dict `update` from pair iterables or keyword arguments, and `|`/`|=` with a non-dict;
  - list `+=` with a tuple or other non-list iterable, whose items `make_observable` would not convert (observables.py:105); `extend` goes through `list(iterable)` first (observables.py:65), so its items are always converted, as `Extend` models;
  - set operators with a non-set operand.
- `ObservableSets.ObservableSet.Pop`: any element may be returned. CPython's choice of element is not modelled.
- `App.handle_exception` (signature inspection and background tasks), `App.shutdown` (process and window control), and `add_static_file`, `add_media_files` and `add_media_file` are not modelled. These involve file-system checks, hashing and streaming responses. `add_static_files` is modelled only up to its guard; after the guard it records the mount request (`mounts`), and the framework's own `mount` is not modelled.
- The `globals.index_client` context and the exception swallowing of `helpers.safe_invoke` around start and stop handlers are not modelled. Running a handler is recorded, not executed.
- `App.__init__` also creates `native`, `storage` and `urls`. These are not modelled. `urls = ObservableSet()` passes neither `data` nor `on_change`, which the constructor at observables.py:112 requires.
- The routes FastAPI installs at construction are a constructor parameter.
