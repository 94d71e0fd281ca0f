# Chakra batch trace tools: a Dafny model

This project models three pieces of the Chakra execution-trace tool chain:

- **Batch trace linking** (`batch_trace_link.dfy`). A directory listing is split into host
  traces and device traces by identifier substrings. Each host trace, in name order, gets
  the device trace found by the shortest name prefix that exactly one device trace
  contains. Each found pair becomes a `LinkerArgs` record with an output file name. When
  records were found, `main` creates the output directory and links every pair in order.
  When none were found, `main` as written raises AttributeError while building its error
  message, before its `sys.exit(-1)` (see "## Findings"). `LinkBatch` and `LinkTraces`
  model the evidently intended behaviour, exit -1; `LinkEffectsAsWritten` models the code
  as written.
- **Batch conversion** (`batch_converter.dfy`). A sorted listing is scanned for files whose
  names contain the linked-trace identifier. The scan fills an insertion-ordered dictionary
  from trace names to input and output file pairs. It raises when a file has exactly the
  identifier as its name. The driver loop exits with -1 on an empty dictionary. Otherwise
  it creates the output directory and converts every entry, never simulating.
- **Host trace flattening** (`host_trace_loader.dfy`). A recursive pre-order walk collects
  every operator below a root, and the result is stably sorted by operator id.

The shared modules are:

- `strings.dfy`: Python's substring test `sub in s`, `s.split(sep)[0]`, and the
  code-point order of `str`.
- `listing.dfy`: directory entries and sorting by name.
- `effects.dfy`: the `Effect` calls into the outside world and the `World` log that records
  them.
- `wrappers.dfy`: `Option` and `Result`.

How the model stands in for the environment:

- A directory listing is a `seq<Entry>`. An `Entry` carries the `as_posix()` path, the
  `name` and the `is_dir()` flag. The listing's order is the arbitrary order of `iterdir()`.
- `sorted` on the paths of one directory compares their names. It is modelled as a stable
  insertion sort on names.
- `Path(directory, name).as_posix()` is an abstract `join` parameter.
- The calls to `TraceLinker.link`, `PyTorchConverter.convert`, `Path.mkdir` and `sys.exit`,
  and an exception escaping, are entries appended to the `log` of a `World` object.
- Python's mutable lists and dicts are either threaded through loops as values or are
  fields the methods reassign.

Facts about the code that the model keeps:

- The output name of a linked trace is the host name before the first occurrence of the
  host identifier, followed by the extension (`src/trace_link/batch_trace_link.py:62`). The
  device name plays no part in it. The option's help text
  (`src/trace_link/batch_trace_link.py:94-99`) says the name is built from the substrings
  common to the host and device traces. Both rules give the same name for the help text's
  own example, but not in general.
- The uncompressed extension is `linked.json`, with no leading underscore
  (`src/trace_link/batch_trace_link.py:37`). Only the compressed one, `_linked.json.gz`, has
  the underscore.
- Nothing stops two hosts from sharing one device trace. `BatchTraceLink.DeviceCanBeShared`
  proves that any listing of the shape it describes links both hosts with the same device.
  `BatchTraceLink.SharedDeviceExample` gives one such listing.
- When no records are found, `main` in batch linking raises AttributeError instead of
  exiting with -1. This is listed under "## Findings", and the model carries both
  behaviours.

## Model

| member | source | states |
|---|---|---|
| `Strings.Contains` | src/trace_link/batch_trace_link.py:44 | Python's `sub in s`, decided by trying each start position in turn. A string is never contained in a shorter one; `ContainsAt` characterises it by positions. |
| `Strings.FirstIndex` | src/trace_link/batch_trace_link.py:62 | The index found is an occurrence of the separator with none before it; `None` means the separator occurs nowhere. |
| `Strings.ContainsAt` | src/trace_link/batch_trace_link.py:44 | Python's `sub in s` holds exactly when `sub` starts at some position `0..len(s)` of `s`. |
| `Strings.ContainsIffFirstIndex` | src/trace_link/batch_trace_link.py:62 | The separator is found exactly when it is contained in the name. |
| `Strings.ContainsPrefixOf` | src/trace_link/batch_trace_link.py:51 | A string containing `p` contains every prefix of `p`. |
| `Strings.BeforeFirst` | src/converter/batch_converter.py:55 | `s.split(sep)[0]` is a prefix of `s`. |
| `Strings.BeforeFirstCutsAtFirstOccurrence` | src/converter/batch_converter.py:55 | `split(sep)[0]` stops exactly at the leftmost occurrence of the separator, and is the whole string when there is none. |
| `Strings.BeforeFirstExcludesSeparator` | src/converter/batch_converter.py:55 | For a non-empty separator, `split(sep)[0]` never contains the separator. |
| `Strings.LexLe` | src/trace_link/batch_trace_link.py:48 | Python's `a <= b` on `str`, compared code point by code point. Every prefix of a string is at most that string; the three lemmas below prove it a total order. |
| `Strings.LexLeTotal` | src/trace_link/batch_trace_link.py:48 | Code-point string order is total. |
| `Strings.LexLeTransitive` | src/trace_link/batch_trace_link.py:48 | Code-point string order is transitive. |
| `Strings.LexLeAntisymmetric` | src/trace_link/batch_trace_link.py:48 | Code-point string order is antisymmetric. |
| `Listing.InsertByName` | src/trace_link/batch_trace_link.py:48 | Inserting adds exactly one entry, as a multiset. |
| `Listing.SortByName` | src/converter/batch_converter.py:46 | The sort of a listing is a permutation of it. |
| `Listing.InsertByNameSorted` | src/trace_link/batch_trace_link.py:48 | Inserting into a name-sorted sequence keeps it sorted. |
| `Listing.SortByNameSorted` | src/converter/batch_converter.py:46 | `sorted(...)` of one directory's entries is ordered by name and is a permutation of the listing. |
| `Listing.SortByNameMembers` | src/trace_link/batch_trace_link.py:48 | An entry is in the sorted listing exactly when it is in the listing. |
| `Effects.World.constructor` | src/trace_link/batch_trace_link.py:130-134 | A run starts with no effects recorded. |
| `Effects.World.MkDir` | src/trace_link/batch_trace_link.py:149 | Creating the output directory appends exactly that one effect. |
| `Effects.World.Link` | src/trace_link/batch_trace_link.py:160-161 | A `link` call appends exactly that one effect, with its three arguments. |
| `Effects.World.Convert` | src/converter/batch_converter.py:34-37 | A `convert_pytorch` call appends exactly that one effect, with its three arguments. |
| `Effects.World.Exit` | src/trace_link/batch_trace_link.py:147 | `sys.exit(code)` appends exactly that one effect. |
| `Effects.World.Raise` | src/converter/batch_converter.py:50-53 | An escaping exception appends exactly that one effect. |
| `BatchTraceLink.LinkedTraceExtension` | src/trace_link/batch_trace_link.py:37 | The extension of a linked output name: `_linked.json.gz` when compressing, otherwise `linked.json` with no leading underscore. `LinkerArgsNaming` states it for every record. |
| `BatchTraceLink.IsHostTrace` | src/trace_link/batch_trace_link.py:42-45 | A host trace is a file, not a directory, whose name contains the host identifier. With an empty host identifier every file is one. |
| `BatchTraceLink.IsDeviceTrace` | src/trace_link/batch_trace_link.py:42-47 | A device trace is a file whose name contains the device identifier but not the host identifier: the `elif`. So no entry is both a host trace and a device trace. |
| `BatchTraceLink.HostTraces` | src/trace_link/batch_trace_link.py:41-45 | There are never more host candidates than entries. |
| `BatchTraceLink.DeviceTraces` | src/trace_link/batch_trace_link.py:41-47 | There are never more device candidates than entries. |
| `BatchTraceLink.ClassifiedMembers` | src/trace_link/batch_trace_link.py:41-47 | An entry is a host candidate exactly when it is a listed non-directory whose name contains the host identifier. It is a device candidate exactly when it is a listed non-directory whose name contains the device identifier but not the host identifier: the `elif`. |
| `BatchTraceLink.ClassifyTraces` | src/trace_link/batch_trace_link.py:41-47 | The classification loop produces the two candidate lists, in listing order. |
| `BatchTraceLink.Matching` | src/trace_link/batch_trace_link.py:51 | There are never more matching devices than devices. |
| `BatchTraceLink.MatchingMembers` | src/trace_link/batch_trace_link.py:51 | A device matches a prefix exactly when it is a candidate whose name contains the prefix. |
| `BatchTraceLink.MatchingShrinks` | src/trace_link/batch_trace_link.py:51 | Lengthening the prefix can only remove matching devices, never add any. |
| `BatchTraceLink.PrefixStepShrinks` | src/trace_link/batch_trace_link.py:50-51 | The devices matching `name[0:i+1]` are a subset of those matching `name[0:i]`. |
| `BatchTraceLink.UniquePrefixFrom` | src/trace_link/batch_trace_link.py:50-54 | The search from `i` finds the least prefix length, below the name length, with exactly one match; `None` means there is none. |
| `BatchTraceLink.UniquePrefixLength` | src/trace_link/batch_trace_link.py:50-54 | The search over `range(1, len(name))` finds the least length with exactly one match; names of length at most 1 never find one. |
| `BatchTraceLink.MatchingDeviceTrace` | src/trace_link/batch_trace_link.py:49-56 | The device selected for a host trace name. It is always one of the device candidates, and only a name of at least two characters can select one; `MatchedDeviceIsUniqueAtShortestPrefix` states which one. |
| `BatchTraceLink.MatchedDeviceIsUniqueAtShortestPrefix` | src/trace_link/batch_trace_link.py:49-56 | A host finds no device exactly when no prefix length in `[1, len-1]` has exactly one match. A device found is a candidate containing the chosen prefix. It is the only such candidate, and every shorter prefix has a match count other than one. |
| `BatchTraceLink.FindMatchingDeviceTrace` | src/trace_link/batch_trace_link.py:49-54 | The inner loop with `break` selects exactly the device at the shortest unique prefix. |
| `BatchTraceLink.PairedHosts` | src/trace_link/batch_trace_link.py:48-64 | There are never more pairs than hosts. |
| `BatchTraceLink.PairedHostsMembers` | src/trace_link/batch_trace_link.py:48-64 | A pair is produced exactly when its host is a candidate and its device is the one that host's prefix search selects. |
| `BatchTraceLink.OutputTraceFileName` | src/trace_link/batch_trace_link.py:62 | The output name is a prefix of the host name followed by the linked extension. For a non-empty host identifier that prefix never contains the identifier. |
| `BatchTraceLink.ToLinkerArgs` | src/trace_link/batch_trace_link.py:58-64 | The `LinkerArgs` record built for one pair, from the host path, the device path and the output name. `LinkerArgsNaming` states these contents for every record of a listing. |
| `BatchTraceLink.LinkerArgsFor` | src/trace_link/batch_trace_link.py:58-64 | There is one linker-argument record per pair. |
| `BatchTraceLink.PairsOf` | src/trace_link/batch_trace_link.py:41-56 | The pairs found in a listing: never more than the host candidates, which are never more than the entries. |
| `BatchTraceLink.LinkerArgsOf` | src/trace_link/batch_trace_link.py:33-65 | The records `find_linker_args` returns: at most one per listed entry. `FindLinkerArgs` computes it; `LinkerArgsNaming`, `PairsComeFromCandidates` and `PairsFollowSortedHosts` state its contents. |
| `BatchTraceLink.FindLinkerArgs` | src/trace_link/batch_trace_link.py:33-65 | `find_linker_args` computes exactly the classified, sorted, prefix-matched and named records of the listing. |
| `BatchTraceLink.PairedHostsKeepHostOrder` | src/trace_link/batch_trace_link.py:48 | The pairs of name-sorted hosts keep that order. |
| `BatchTraceLink.PairedHostsAtMostOncePerHost` | src/trace_link/batch_trace_link.py:48-64 | The multiset of paired hosts is contained in the multiset of hosts. |
| `BatchTraceLink.PairsComeFromCandidates` | src/trace_link/batch_trace_link.py:41-61 | Every pair's host is a listed host candidate and its device a listed device candidate. That device is the one the host's prefix search selects. |
| `BatchTraceLink.UnmatchedHostsOmitted` | src/trace_link/batch_trace_link.py:55-56 | A host candidate occurs among the pairs exactly when its search finds a device. Unmatched hosts are skipped without affecting the other hosts. |
| `BatchTraceLink.PairsFollowSortedHosts` | src/trace_link/batch_trace_link.py:48-61 | The pairs are in sorted host-name order. There are at most as many as host candidates, and no host is paired more often than it is a candidate. |
| `BatchTraceLink.LinkerArgsNaming` | src/trace_link/batch_trace_link.py:37-62 | Each record holds its pair's two paths. Its output name is the host name before the first occurrence of the host identifier, followed by `_linked.json.gz` when compressed and `linked.json` otherwise. |
| `BatchTraceLink.NoDevicesNoPairs` | src/trace_link/batch_trace_link.py:50-56 | Without device candidates no host is paired. |
| `BatchTraceLink.EmptyHostIdentifierNoDevices` | src/trace_link/batch_trace_link.py:44-47 | With an empty host identifier every file is a host, so no file is a device. |
| `BatchTraceLink.EmptyHostIdentifierPairsNothing` | src/trace_link/batch_trace_link.py:44-62 | With an empty host identifier nothing is paired, so `split("")` is never reached. |
| `BatchTraceLink.HostTracesOfThree` | src/trace_link/batch_trace_link.py:41-45 | In a listing of two host traces and a device trace, the two hosts are the host candidates, in listing order. |
| `BatchTraceLink.DeviceTracesOfThree` | src/trace_link/batch_trace_link.py:41-47 | In the same listing, the device trace is the only device candidate. |
| `BatchTraceLink.SortTwoByName` | src/trace_link/batch_trace_link.py:48 | Two entries already in name order keep that order. |
| `BatchTraceLink.TwoHostsOneDevice` | src/trace_link/batch_trace_link.py:41-48 | Two hosts and a device are classified and ordered as expected. |
| `BatchTraceLink.BothHostsGetTheDevice` | src/trace_link/batch_trace_link.py:48-61 | Two hosts whose first characters occur in a single device's name are both paired with that device. |
| `BatchTraceLink.DeviceCanBeShared` | src/trace_link/batch_trace_link.py:33-65 | `find_linker_args` can give the same device trace to two host traces. |
| `BatchTraceLink.SharedDeviceExample` | src/trace_link/batch_trace_link.py:33-65 | With host identifier `H` and device identifier `D`, the files `aH`, `bH` and `abD` give two records, and both carry `abD` as their device trace. |
| `BatchTraceLink.LinkCalls` | src/trace_link/batch_trace_link.py:150-161 | There is exactly one link call per record. |
| `BatchTraceLink.LinkCallsAt` | src/trace_link/batch_trace_link.py:150-161 | The `k`-th link call is for the `k`-th record: its host and device paths, and its output name joined under the output directory. |
| `BatchTraceLink.LinkEffects` | src/trace_link/batch_trace_link.py:140-161 | The effects of `main` with the exit corrected: one more than there are records, that one being the exit or the directory creation. `LinkingOrder` states their order. |
| `BatchTraceLink.LinkEffectsAsWritten` | src/trace_link/batch_trace_link.py:140-161 | The effects of `main` as written: also one more than there are records, and identical to the corrected effects whenever there is a record. The two differ only on an empty result, as `EmptyPairsRaiseAsWritten` shows. |
| `BatchTraceLink.EmptyPairsRaiseAsWritten` | src/trace_link/batch_trace_link.py:140-147 | As written, an empty result raises AttributeError and never performs the intended `sys.exit(-1)`. |
| `BatchTraceLink.LinkingOrder` | src/trace_link/batch_trace_link.py:140-161 | With no records the only effect is exit -1. Otherwise the directory is created first and there is one link per record, in order, with no exit. |
| `BatchTraceLink.LinkAll` | src/trace_link/batch_trace_link.py:150-161 | The `for` loop in `main` performs exactly the link calls, in record order. |
| `BatchTraceLink.LinkBatch` | src/trace_link/batch_trace_link.py:140-161 | `main` with the exit corrected, once the records are known. It performs exactly the effects stated by `LinkingOrder`: exit -1 alone when there are none. The code as written raises AttributeError there instead (see "## Findings"). |
| `BatchTraceLink.LinkTraces` | src/trace_link/batch_trace_link.py:134-161 | `main` with the exit corrected, after argument parsing: it links exactly the records `find_linker_args` computes, through `LinkBatch`. |
| `BatchConverter.Put` | src/converter/batch_converter.py:56 | Assigning into the dict keeps keys unique and in step with the mapping. A new key is appended at the end; an existing key keeps its place and takes the new value. |
| `BatchConverter.ConvertedExtension` | src/converter/batch_converter.py:45 | The extension of a converted output name: `.et.gz` when compressing, otherwise `.et`. `CollectKeysSound` states it for every key. |
| `BatchConverter.Raises` | src/converter/batch_converter.py:47-55 | A file raises ValueError in the scan when its name is exactly the identifier (lines 49-53), or when the identifier is empty, because `split("")` raises (line 55). Directories never raise. |
| `BatchConverter.Contributes` | src/converter/batch_converter.py:47-54 | A file contributes to the dictionary when its name contains the identifier. Every file that raises would also contribute, so the raising checks come first. |
| `BatchConverter.TraceName` | src/converter/batch_converter.py:55 | The trace name is a prefix of the file name. For a non-empty identifier it never contains the identifier. |
| `BatchConverter.PairFor` | src/converter/batch_converter.py:56-59 | The file pair stored for a file: its own path and the trace name plus the extension, joined under the output directory. `CollectKeysSound` and `CollectLastWins` state it for the scan. |
| `BatchConverter.Step` | src/converter/batch_converter.py:47-59 | One iteration of the scan raises exactly on a file that is named the identifier, or on any file when the identifier is empty. Otherwise the earlier keys stay in place and at most one key is added, at the end. |
| `BatchConverter.Collect` | src/converter/batch_converter.py:46-60 | A successful scan has at most one key per scanned entry. |
| `BatchConverter.LinkedTraces` | src/converter/batch_converter.py:40-60 | What `find_linked_traces` returns for a listing: on success, at most one key per listed entry. |
| `BatchConverter.CollectFailsIff` | src/converter/batch_converter.py:46-55 | The scan fails exactly when one of the scanned entries raises. |
| `BatchConverter.LinkedTracesFailsIff` | src/converter/batch_converter.py:46-55 | `find_linked_traces` raises ValueError exactly when some listed non-directory has the identifier as its whole name, wherever it is listed. With an empty identifier it raises when there is any file at all, because of `split("")`. Directories never cause it to raise. |
| `BatchConverter.CollectValid` | src/converter/batch_converter.py:44-56 | A successful scan yields a dictionary with unique keys. It is empty when the identifier is empty. |
| `BatchConverter.CollectKeysSound` | src/converter/batch_converter.py:54-59 | Every key is the trace name of a contributing file, that is, a non-directory containing the identifier. That file's path is the key's input file. The key does not contain the identifier. The output file is the key plus `.et.gz` or `.et`, joined under the output directory. |
| `BatchConverter.CollectKeysComplete` | src/converter/batch_converter.py:54-56 | Every contributing file's trace name is a key. |
| `BatchConverter.CollectLastWins` | src/converter/batch_converter.py:56-59 | When several files share a trace name, the last of them in scan order supplies the value. |
| `BatchConverter.CollectKeysKeepPosition` | src/converter/batch_converter.py:56 | The keys after a prefix of the scan are a prefix of the final keys, so a key keeps the position of its first insertion. |
| `BatchConverter.CollectFailureSticks` | src/converter/batch_converter.py:50-53 | Once the scan has raised, the rest of the listing does not matter. |
| `BatchConverter.FindLinkedTraces` | src/converter/batch_converter.py:40-60 | The loop with its early raises computes exactly `find_linked_traces` on the sorted listing. |
| `BatchConverter.Items` | src/converter/batch_converter.py:78 | `trace_pairs.items()` lists one file pair per key. |
| `BatchConverter.ConvertCalls` | src/converter/batch_converter.py:78-87 | There is exactly one conversion per file pair. |
| `BatchConverter.ConvertCallsAt` | src/converter/batch_converter.py:78-87 | The `i`-th conversion takes the `i`-th file pair's input and output, with `simulate=False`. |
| `BatchConverter.ConvertAll` | src/converter/batch_converter.py:78-87 | The `for` loop performs exactly those conversions, in order. |
| `BatchConverter.ConversionOrder` | src/converter/batch_converter.py:63-87 | A raising scan turns into an escaping ValueError. A successful one gives a valid dictionary, and the batch then does what `ConvertEffectsOrder` describes. |
| `BatchConverter.ConvertEffectsOrder` | src/converter/batch_converter.py:70-87 | An empty dictionary exits -1 before anything else. Otherwise the directory is created first, then there is one unsimulated conversion per key, in dictionary order, and no exit. |
| `BatchConverter.ConvertEffects` | src/converter/batch_converter.py:70-87 | The effects of `convert_pytorch_batch` for a dictionary: one more than there are keys, that one being the exit or the directory creation. `ConvertEffectsOrder` states their order. |
| `BatchConverter.ConvertBatchEffects` | src/converter/batch_converter.py:63-87 | The effects of `convert_pytorch_batch` for a listing: at least one, and at most one more than there are listed entries. `ConversionOrder` states what they are. |
| `BatchConverter.ConvertTracePairs` | src/converter/batch_converter.py:70-87 | `convert_pytorch_batch`, once the dictionary is known, performs exactly the effects stated by `ConvertEffectsOrder`. |
| `BatchConverter.ConvertPytorchBatch` | src/converter/batch_converter.py:63-87 | `convert_pytorch_batch` raises, or converts exactly what `find_linked_traces` found. |
| `HostTraceLoader.PreOrder` | src/trace_link/chakra_host_trace_loader.py:57-60 | The walk of a node is non-empty and starts with the node itself. |
| `HostTraceLoader.PreOrderList` | src/trace_link/chakra_host_trace_loader.py:59-60 | The walks of a sequence of siblings, one after another: empty exactly when there are no siblings. |
| `HostTraceLoader.PreOrderLength` | src/trace_link/chakra_host_trace_loader.py:55-62 | The walk lists as many operators as the tree has nodes. |
| `HostTraceLoader.PreOrderListLength` | src/trace_link/chakra_host_trace_loader.py:59-60 | The walks of a sequence of siblings list as many operators as the siblings' trees hold. |
| `HostTraceLoader.PreOrderLayout` | src/trace_link/chakra_host_trace_loader.py:57-60 | A node is recorded before its children. The `j`-th child's whole walk follows the node and its earlier siblings' walks, in consecutive positions. |
| `HostTraceLoader.ChildListingIncluded` | src/trace_link/chakra_host_trace_loader.py:57-60 | A node's walk contains the node and everything in each child's walk. |
| `HostTraceLoader.Traverse` | src/trace_link/chakra_host_trace_loader.py:57-60 | The recursive `traverse` appends exactly the pre-order walk of its node to the list. |
| `HostTraceLoader.WithId` | src/trace_link/chakra_host_trace_loader.py:64 | The operators with a given id, in input order, used to state stability. The result is never longer than the input. |
| `HostTraceLoader.WithIdMembers` | src/trace_link/chakra_host_trace_loader.py:64 | An operator is in the by-id filter exactly when it is in the input and has that id. |
| `HostTraceLoader.InsertById` | src/trace_link/chakra_host_trace_loader.py:64 | Inserting adds exactly one operator, as a multiset. |
| `HostTraceLoader.SortById` | src/trace_link/chakra_host_trace_loader.py:64 | Sorting by id is a permutation. |
| `HostTraceLoader.InsertByIdSorted` | src/trace_link/chakra_host_trace_loader.py:64 | Inserting into an id-ordered sequence keeps it ordered. |
| `HostTraceLoader.SortByIdSorted` | src/trace_link/chakra_host_trace_loader.py:64 | The result is non-decreasing by id and a permutation of the walk. |
| `HostTraceLoader.InsertByIdStable` | src/trace_link/chakra_host_trace_loader.py:64 | Insertion places an operator after all operators with its id. |
| `HostTraceLoader.SortByIdStable` | src/trace_link/chakra_host_trace_loader.py:64 | Operators with equal ids keep their pre-order relative order. |
| `HostTraceLoader.InsertByIdStrict` | src/trace_link/chakra_host_trace_loader.py:64 | Inserting an operator with a new id into a strictly ordered sequence keeps it strictly ordered. |
| `HostTraceLoader.SortByIdStrict` | src/trace_link/chakra_host_trace_loader.py:64 | With distinct ids the result is strictly increasing by id. |
| `HostTraceLoader.ExtractChakraHostOps` | src/trace_link/chakra_host_trace_loader.py:42-64 | The result is the stable id sort of the pre-order walk. It has one operator per tree node and contains the root. It is non-decreasing by id and a permutation of the walk; equal ids keep walk order; distinct ids give a strictly increasing result. |

## Left out

- Logging and `setup_logging`: they only configure and write to a global logger.
- Argument parsing: the `argparse`/`configargparse` setup in both `main` functions is command-line plumbing. The models start from the parsed values.
- `src/utils/file_io.py` and `src/protobufizer/protobufizer.py` are not part of this model. They are file, gzip and protobuf plumbing built on foreign calls.
- `load_execution_trace_file` and the `get_nodes()[1]` root lookup in `ChakraHostTraceLoader.load` are not modelled: they are JSON and gzip input and an external parser. The flattener takes the root node as input.
- `TraceLinker.link`, `PyTorchConverter.convert` and `Path.mkdir` are opaque. Only the fact and the order of the calls are recorded in the `World` log.
- `Path.iterdir` is an input sequence, and `as_posix`, `is_dir` and path joining are inputs or the abstract `join`. The model does not capture that two different names might join to the same path.
- The ValueError messages are not modelled: the error datatype records which condition raised, not the message text.
- `sys.setrecursionlimit` and Python's recursion depth are interpreter configuration. The recursive walk here has no depth limit.
- Every exception raised inside `link` or `convert` is left out, as is the file-system failure of `mkdir`.
- Python's `sorted` is modelled by a different algorithm with the same result: a stable sort has exactly one outcome. Comparison of paths within one directory is modelled as comparison of their names by code point.
- The `traverse` closure mutates a list it captures. The model threads that list through `Traverse` as a value.
- The insertion-ordered `dict` is a value (`OrderedDict`). It is replaced after each assignment rather than mutated in place, which nothing else can observe, because only the function holds it.
- File names are modelled as sequences of Unicode scalar values, which is what Dafny's `string` is. Python's `str` can also hold lone surrogates: on Linux, file names with bytes that do not decode reach `item.name` that way. Such names cannot be represented in the model.

## Findings

| source | as written | input that shows it | evidently intended | confidence | as-written member | corrected member |
|---|---|---|---|---|---|---|
| src/trace_link/batch_trace_link.py:140-147 | When no pairs are found, the error log reads `args.device_trace_identifier`. The parsed arguments only have `chakra_device_trace_identifier`, so an AttributeError escapes before `sys.exit(-1)`. | An input directory with no host trace that has a matching device trace, e.g. an empty directory. | Log the error with the device identifier and exit with -1 before linking anything. | not executed | `BatchTraceLink.EmptyPairsRaiseAsWritten` | `BatchTraceLink.LinkBatch`, `BatchTraceLink.LinkingOrder` |
