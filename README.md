# Shared drive analyser: folder hierarchy model

The analyser fetches the metadata of every item of a Google shared drive. It rebuilds the
folder hierarchy from the flat listing. For every folder it reports the total size, the
number of files and the latest modification time below it, together with the folder's
slash-separated path. It also writes an indented tree of the folders.

This project models the in-memory part of that work, component by component:

- `DriveRecords`: the records of the listing. A record has an id, a name, a MIME type,
  an optional size, an optional modification time and a sequence of parent ids. This
  module also holds the acyclicity assumption the recursive passes rely on.
- `HierarchyBuilder`: `build_tree`. It indexes the records by id and lists every record
  under each of its parents.
- `Aggregator`: `get_size_and_details`. It returns the size, count and latest
  modification time of a subtree.
- `PathResolver`: `get_folder_path`. It walks first parents up to the top and joins the
  names with `/`.
- `TreeRenderer`: `print_tree` and the main block's loop over the root folders.
  - The shared `out_lines` list is the class `LineBuffer`, which is only appended to.
  - `sorted(..., key=name)` is an insertion sort proved sorted and a permutation.
- `SizeFormatter`: the unit choice of `human_readable_size`, over integers.
- `StringOrder`: Python's `<` on `str`. The source uses it to compare timestamps and to
  sort names; the module proves it is a strict total order.

The source has no cycle detection. On a cycle of folders, the recursion of
`get_size_and_details` and `print_tree` stops with Python's `RecursionError`. The same error
stops it on an acyclic folder chain deeper than the interpreter's recursion limit. The
`while` loop of `get_folder_path` runs forever when it enters a cycle of first parents.
The model excludes cycles with ghost rank functions; the recursion limit is not modelled
(see "Left out"). The ranks are required over the whole index, so they also exclude cycles
that the source never reaches from the record it is working on:

- `height` strictly decreases from a parent id to every folder listed under it
  (`FolderEdgesDescend`).
- `depth` strictly decreases from a record to its first parent (`FirstParentDescends`).

Building the tree, aggregating, resolving a path and rendering are methods. Each one's
result, or the lines it appends, equals a specification function, and lemmas prove the promised
properties about that function. The unit choice of the size formatter is a method whose
ensures state the chosen unit directly.

## Model

| member | source | states |
|---|---|---|
| HierarchyBuilder.BuildTree | shared_drive_analysis.py:68-75 | `file_map[k]` is the last record with id `k`, and the keys are exactly the ids of the listing. `children[p]` is `Listing(files, p)`, and its keys are exactly the ids some record lists as a parent. |
| HierarchyBuilder.AddUnderParents | shared_drive_analysis.py:73-74 | The list of every parent id grows by one copy of the record for each time the record lists that parent. No other list changes. |
| HierarchyBuilder.ListingMembers | shared_drive_analysis.py:70-74 | A record is in `children[p]` exactly when it occurs in the listing and lists `p` among its parents. |
| HierarchyBuilder.ListingAppend | shared_drive_analysis.py:71-74 | The children lists keep input order: processing `a` then `b` gives the list for `a` followed by the list for `b`. |
| HierarchyBuilder.ListingSingle | shared_drive_analysis.py:73-74 | A single record is listed under `p` once per occurrence of `p` among its parents, duplicates kept. |
| HierarchyBuilder.ParentlessUnlisted | shared_drive_analysis.py:73-74 | A record without parents appears in no children list. |
| HierarchyBuilder.LastByIdIsLast | shared_drive_analysis.py:71-72 | A record with no later record of the same id is the value stored under its id: later records overwrite earlier ones. |
| HierarchyBuilder.LastByIdNone | shared_drive_analysis.py:71-72 | An id has no entry exactly when no record of the listing carries it. |
| DriveRecords.SizeOf | shared_drive_analysis.py:89 | A record's size, 0 when the listing gives none. |
| DriveRecords.IsFolder | shared_drive_analysis.py:78 | A record is a folder exactly when its MIME type is `application/vnd.google-apps.folder` (the same test at lines 110 and 116). |
| DriveRecords.ChildrenOf | shared_drive_analysis.py:81 | The records listed under an id in the children index, and none when the id has no entry (the same lookup at line 109). |
| DriveRecords.StampOf | shared_drive_analysis.py:80 | A record's modification time, the epoch `1970-01-01T00:00:00Z` when the listing gives none (also line 90). |
| Aggregator.GetSizeAndDetails | shared_drive_analysis.py:77-90 | The result is `Details(node)`. A file gives its size (0 if missing), a count of 1 and its timestamp (the epoch if missing). A folder without children gives `(0, 0, own timestamp)`. |
| Aggregator.AggregateChildren | shared_drive_analysis.py:79-87 | The loop's totals are the fold of `Add` over the children's results, starting from zero size, zero count and the folder's own timestamp. |
| Aggregator.Later | shared_drive_analysis.py:85-86 | The kept timestamp is one of the two compared, and neither is later than it. |
| Aggregator.DetailsSumReachable | shared_drive_analysis.py:78-90 | A subtree's size is the sum of the sizes of the files reachable through `children`, and its count is their number, with multiplicity. |
| Aggregator.ReachableAreFiles | shared_drive_analysis.py:78-90 | Only file records are counted; folders contribute nothing of their own. |
| Aggregator.LatestIsMaximum | shared_drive_analysis.py:80-86 | A folder's latest time is the maximum of its own timestamp and every child's latest time: none of them is later, and it equals one of them. It is never earlier than the folder's own timestamp. |
| Aggregator.LatestCoversReachable | shared_drive_analysis.py:78-90 | No file counted in a subtree has a timestamp later than the subtree's latest time. |
| PathResolver.Reversed | shared_drive_analysis.py:101 | The collected names last first: position `i` of the result holds position `n - 1 - i` of the input, and the length is kept. |
| PathResolver.Join | shared_drive_analysis.py:101 | The names with one `/` between neighbours; `""` for no names and the name itself for one (`JoinSnoc` proves that appending a name adds `/` and the name). |
| PathResolver.GetFolderPath | shared_drive_analysis.py:92-101 | The result is the names along the first-parent chain, joined root first. It is `""` for an id not in the index, and the record's own name for a record without parents. |
| PathResolver.ChainShape | shared_drive_analysis.py:94-100 | The walk starts at the id and follows only `parents[0]`. It stops at the first record without parents or whose first parent is not in the index; it is empty exactly when the id is not in the index. |
| PathResolver.PathStep | shared_drive_analysis.py:92-101 | A record whose first parent is in the index has its parent's path, `/` and its own name. Any other indexed record has just its own name. |
| TreeRenderer.LineBuffer.Append | shared_drive_analysis.py:105-106 | The lines gain the new line at the end; earlier lines are unchanged. |
| TreeRenderer.PrintTree | shared_drive_analysis.py:103-111 | With a buffer, exactly `TreeLines(node, prefix)` is appended and earlier lines are kept. With no buffer nothing is written. |
| TreeRenderer.PrintSubtrees | shared_drive_analysis.py:109-111 | The loop over the sorted children appends the subtrees of the folder children in turn. |
| TreeRenderer.TreeLinesShape | shared_drive_analysis.py:104-111 | The first line is `prefix + name + "/"`, and every later line starts with `prefix` plus two spaces. |
| TreeRenderer.TreeLinesVisitOrder | shared_drive_analysis.py:109-111 | The subtree is the node's line followed by the subtrees of `Visited(node)`, two spaces deeper. |
| TreeRenderer.VisitedSortedFolders | shared_drive_analysis.py:109-110 | The visited children are in ascending name order. They are exactly the folder children, each as often as it is listed. |
| TreeRenderer.SortByName | shared_drive_analysis.py:109 | `sorted(key=name)` as an insertion sort by name; `SortByNameSorted` and `SortByNamePermutes` prove it sorted and a permutation. |
| TreeRenderer.SortByNameSorted | shared_drive_analysis.py:109 | `sorted(key=name)` yields ascending names. |
| TreeRenderer.SortByNamePermutes | shared_drive_analysis.py:109 | `sorted(key=name)` is a permutation: each record occurs as often as in its input. |
| TreeRenderer.OccurrencesMultiplicity | shared_drive_analysis.py:109 | The occurrence count used for permutations is the multiplicity in the sequence's multiset. |
| TreeRenderer.Filter | shared_drive_analysis.py:116 | A list comprehension with a condition: every kept element passes it and the result is no longer than the input (`FilterCount` gives the multiplicities). |
| TreeRenderer.FilterCount | shared_drive_analysis.py:116 | A list comprehension with a condition keeps every passing element as often as it occurs and drops every other one. |
| TreeRenderer.FilterSorted | shared_drive_analysis.py:140-141 | Filtering a sorted sequence leaves it sorted. |
| TreeRenderer.RenderTree | shared_drive_analysis.py:139-142 | The tree lines are the subtrees of `Roots`, one after the other, each printed from the empty prefix. |
| TreeRenderer.PrintRoots | shared_drive_analysis.py:140-142 | The loop over the sorted folders appends the subtree of each folder with no parent in the index, in order, and keeps earlier lines. |
| TreeRenderer.IsRoot | shared_drive_analysis.py:141 | A folder is a root when none of its parent ids is a key of the id index. |
| TreeRenderer.Roots | shared_drive_analysis.py:140-141 | The folders of the listing, sorted by name, that pass `IsRoot`; `RootsSorted` and `RootsCount` state their order and multiplicities. |
| TreeRenderer.RootsSorted | shared_drive_analysis.py:140 | The roots are visited in ascending name order. |
| TreeRenderer.RootsCount | shared_drive_analysis.py:139-141 | The roots are exactly the folders none of whose parents is an id of the index, each as often as it occurs in the listing. |
| SizeFormatter.UnitFor | shared_drive_analysis.py:38-43 | The unit is the first of B..TB whose next power of 1024 exceeds the size, and PB when none does. Every earlier power is at most the size. |
| StringOrder.LessTotal | shared_drive_analysis.py:85 | Any two strings are equal or ordered one way or the other. |
| StringOrder.LessTransitive | shared_drive_analysis.py:85 | String `<` is transitive. |
| StringOrder.LessIrreflexive | shared_drive_analysis.py:85 | No string is below itself. |
| StringOrder.LessEqAntisymmetric | shared_drive_analysis.py:109 | Two names each `<=` the other are equal. |

## Left out

- Authentication and the paginated listing fetch (lines 33-35 and 45-66) are network I/O. The listing is the `files` parameter.
- Command-line parsing (lines 27-30) and configuration globals (lines 1-24) are plumbing.
- Writing the CSV file and the tree file, the progress bar, and the final messages (lines 118-148) are output I/O. The per-folder CSV row is the combination of `GetSizeAndDetails`, `GetFolderPath` and `UnitFor`, which are modelled one by one.
- The owner e-mail lookup (line 132) has no stated behaviour.
- The verbose `print` in `print_tree` (lines 107-108) is console output.
- SizeFormatter.UnitFor: only the unit is chosen. The `.1f` float formatting and the scaled value are floating point and are not modelled.
- `int(file.get('size', 0))` parses a string from the listing. The model takes the size as an already parsed natural number, so a malformed size string is not modelled.
- Cyclic hierarchies are not modelled. The ghost ranks `height` and `depth` exclude every cycle of the index, including one the source never reaches from the record it is working on (two files naming each other as first parent while a parentless folder's path is resolved, say), where the source still returns a result. On a cycle it does reach, the source's recursive passes (lines 82 and 111) raise `RecursionError`, and the parent walk (lines 94-100) loops forever.
- The `RecursionError` that the recursive passes raise on an acyclic folder chain deeper than Python's recursion limit (about 1000) is not modelled. The model has no depth limit and returns a result there.
- TreeRenderer.SortByNamePermutes: stability is not proved. `sorted` is proved sorted and a permutation, but not to keep the input order of equal names.
- `file_map` is passed to `get_size_and_details` and `print_tree` but never read there, so the model omits that parameter.
