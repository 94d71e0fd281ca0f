/**
 * Discovery of linked traces in an input directory and the loop that hands
 * each one to the converter.
 */
module BatchConverter {
  import opened Wrappers
  import opened Strings
  import opened Listing
  import opened Effects

  datatype FilePair = FilePair(inputFile: string, outputFile: string)

  /** Why `find_linked_traces` raises ValueError. */
  datatype Error =
    | IdentifierIsFileName(fileName: string)  // a file is named exactly the identifier
    | EmptySeparator                          // `name.split("")` with an empty identifier

  /**
   * A Python `dict` from trace names to file pairs: `keys` in insertion
   * order and `values` the mapping itself.
   */
  datatype OrderedDict = OrderedDict(keys: seq<string>, values: map<string, FilePair>)

  const EmptyDict := OrderedDict([], map[])

  /** Keys are listed once each, and exactly the keys of the mapping are listed. */
  ghost predicate ValidDict(d: OrderedDict) {
    && (forall i, j :: 0 <= i < j < |d.keys| ==> d.keys[i] != d.keys[j])
    && (forall k :: k in d.keys <==> k in d.values)
  }

  /**
   * `d[k] = v`: a new key goes to the end, an existing key keeps its
   * position and gets the new value.
   */
  function Put(d: OrderedDict, k: string, v: FilePair): (r: OrderedDict)
    ensures ValidDict(d) ==> ValidDict(r)
    ensures r.values == d.values[k := v]
    ensures |r.keys| == |d.keys| + (if k in d.values then 0 else 1) && r.keys[..|d.keys|] == d.keys
  {
    if k in d.values then OrderedDict(d.keys, d.values[k := v])
    else OrderedDict(d.keys + [k], d.values[k := v])
  }

  /** The suffix of a converted output name. */
  function ConvertedExtension(compression: bool): string {
    if compression then ".et.gz" else ".et"
  }

  /** A file that makes `find_linked_traces` raise ValueError. */
  predicate Raises(e: Entry, linkedId: string) {
    !e.isDir && (e.name == linkedId || linkedId == [])
  }

  /** A file whose name contains the identifier. */
  predicate Contributes(e: Entry, linkedId: string)
    ensures Raises(e, linkedId) ==> Contributes(e, linkedId)
  {
    assert IsPrefix(linkedId, linkedId) && IsPrefix([], e.name);
    !e.isDir && Contains(e.name, linkedId)
  }

  /** The trace name of a file: its name before the first occurrence of the identifier. */
  function TraceName(e: Entry, linkedId: string): (r: string)
    ensures IsPrefix(r, e.name)
    ensures linkedId != [] ==> !Contains(r, linkedId)
  {
    var r := BeforeFirst(e.name, linkedId);
    assert linkedId != [] ==> !Contains(r, linkedId) by {
      if linkedId != [] {
        BeforeFirstExcludesSeparator(e.name, linkedId);
      }
    }
    r
  }

  function PairFor(e: Entry, linkedId: string, outputDir: string, compression: bool,
                   join: (string, string) -> string): FilePair
  {
    FilePair(e.path, join(outputDir, TraceName(e, linkedId) + ConvertedExtension(compression)))
  }

  /** One iteration of the scan over the sorted listing. */
  function Step(d: OrderedDict, e: Entry, linkedId: string, outputDir: string, compression: bool,
                join: (string, string) -> string): (r: Result<OrderedDict, Error>)
    ensures r.Failure? <==> Raises(e, linkedId)
    ensures r.Success? ==> |d.keys| <= |r.value.keys| <= |d.keys| + 1 && r.value.keys[..|d.keys|] == d.keys
  {
    assert IsPrefix([], e.name);
    if e.isDir then Success(d)
    else if e.name == linkedId then Failure(IdentifierIsFileName(e.name))
    else if Contains(e.name, linkedId) then
      if linkedId == [] then Failure(EmptySeparator)
      else Success(Put(d, TraceName(e, linkedId), PairFor(e, linkedId, outputDir, compression, join)))
    else Success(d)
  }

  /** The scan of `entries` in order, stopping at the first error. */
  function Collect(entries: seq<Entry>, linkedId: string, outputDir: string, compression: bool,
                   join: (string, string) -> string): (r: Result<OrderedDict, Error>)
    ensures r.Success? ==> |r.value.keys| <= |entries|
  {
    if entries == [] then Success(EmptyDict)
    else
      var n := |entries| - 1;
      match Collect(entries[..n], linkedId, outputDir, compression, join)
      case Failure(err) => Failure(err)
      case Success(d) => Step(d, entries[n], linkedId, outputDir, compression, join)
  }

  /** What `find_linked_traces` returns (or raises) for a listing. */
  function LinkedTraces(listing: seq<Entry>, linkedId: string, outputDir: string, compression: bool,
                        join: (string, string) -> string): (r: Result<OrderedDict, Error>)
    ensures r.Success? ==> |r.value.keys| <= |listing|
  {
    assert |SortByName(listing)| == |multiset(listing)|;
    Collect(SortByName(listing), linkedId, outputDir, compression, join)
  }

  /** The scan fails exactly when one of its entries raises. */
  lemma {:induction false} CollectFailsIff(entries: seq<Entry>, linkedId: string, outputDir: string,
                                           compression: bool, join: (string, string) -> string)
    ensures Collect(entries, linkedId, outputDir, compression, join).Failure? <==>
      exists i :: 0 <= i < |entries| && Raises(entries[i], linkedId)
  {
    if entries != [] {
      var n := |entries| - 1;
      CollectFailsIff(entries[..n], linkedId, outputDir, compression, join);
      assert forall i :: 0 <= i < n ==> entries[..n][i] == entries[i];
      if linkedId == [] && !entries[n].isDir {
        assert IsPrefix(linkedId, entries[n].name);
      }
    }
  }

  /**
   * `find_linked_traces` raises ValueError exactly when some file (not a
   * directory) is named exactly the identifier, wherever it is listed, or
   * the identifier is empty and there is any file at all.
   */
  lemma LinkedTracesFailsIff(listing: seq<Entry>, linkedId: string, outputDir: string, compression: bool,
                             join: (string, string) -> string)
    ensures LinkedTraces(listing, linkedId, outputDir, compression, join).Failure? <==>
      exists e :: e in listing && !e.isDir && (e.name == linkedId || linkedId == [])
  {
    var sorted := SortByName(listing);
    CollectFailsIff(sorted, linkedId, outputDir, compression, join);
    if exists e :: e in listing && !e.isDir && (e.name == linkedId || linkedId == []) {
      var e :| e in listing && !e.isDir && (e.name == linkedId || linkedId == []);
      SortByNameMembers(listing, e);
      var i :| 0 <= i < |sorted| && sorted[i] == e;
      assert Raises(sorted[i], linkedId);
    }
    if exists i :: 0 <= i < |sorted| && Raises(sorted[i], linkedId) {
      var i :| 0 <= i < |sorted| && Raises(sorted[i], linkedId);
      assert sorted[i] in sorted;
      SortByNameMembers(listing, sorted[i]);
    }
  }

  /** The last contributing entry with key `TraceName(entries[i])` is `entries[i]`. */
  ghost predicate LastWithTraceName(entries: seq<Entry>, i: nat, linkedId: string)
    requires i < |entries|
  {
    && Contributes(entries[i], linkedId)
    && forall j :: i < j < |entries| && Contributes(entries[j], linkedId) ==>
         TraceName(entries[j], linkedId) != TraceName(entries[i], linkedId)
  }

  /** A successful scan yields a valid dictionary, an empty one for an empty identifier. */
  lemma {:induction false} CollectValid(entries: seq<Entry>, linkedId: string, outputDir: string,
                                        compression: bool, join: (string, string) -> string)
    requires Collect(entries, linkedId, outputDir, compression, join).Success?
    ensures ValidDict(Collect(entries, linkedId, outputDir, compression, join).value)
    ensures linkedId == [] ==> Collect(entries, linkedId, outputDir, compression, join).value == EmptyDict
  {
    if entries != [] {
      var n := |entries| - 1;
      CollectValid(entries[..n], linkedId, outputDir, compression, join);
    }
  }

  /**
   * Every key of a successful scan is the trace name of a contributing file
   * whose path is the key's input file; the key does not contain the
   * identifier, and its output file is the key with the converted extension,
   * joined under the output directory.
   */
  lemma {:induction false} CollectKeysSound(entries: seq<Entry>, linkedId: string, outputDir: string,
                                            compression: bool, join: (string, string) -> string, k: string)
    requires Collect(entries, linkedId, outputDir, compression, join).Success?
    requires k in Collect(entries, linkedId, outputDir, compression, join).value.values
    ensures var v := Collect(entries, linkedId, outputDir, compression, join).value.values[k];
      && !Contains(k, linkedId)
      && v.outputFile == join(outputDir, k + ConvertedExtension(compression))
      && exists i :: 0 <= i < |entries| && Contributes(entries[i], linkedId)
           && TraceName(entries[i], linkedId) == k && v.inputFile == entries[i].path
  {
    var n := |entries| - 1;
    var init := entries[..n];
    var d0 := Collect(init, linkedId, outputDir, compression, join).value;
    var e := entries[n];
    if Contributes(e, linkedId) && TraceName(e, linkedId) == k {
      BeforeFirstExcludesSeparator(e.name, linkedId);
      assert Contributes(entries[n], linkedId);
    } else {
      CollectKeysSound(init, linkedId, outputDir, compression, join, k);
      var i :| 0 <= i < |init| && Contributes(init[i], linkedId)
           && TraceName(init[i], linkedId) == k && d0.values[k].inputFile == init[i].path;
      assert entries[i] == init[i];
    }
  }

  /** The trace name of every contributing file is a key of a successful scan. */
  lemma {:induction false} CollectKeysComplete(entries: seq<Entry>, linkedId: string, outputDir: string,
                                               compression: bool, join: (string, string) -> string, i: nat)
    requires Collect(entries, linkedId, outputDir, compression, join).Success?
    requires i < |entries| && Contributes(entries[i], linkedId)
    ensures TraceName(entries[i], linkedId) in Collect(entries, linkedId, outputDir, compression, join).value.values
  {
    var n := |entries| - 1;
    if i < n {
      assert entries[..n][i] == entries[i];
      CollectKeysComplete(entries[..n], linkedId, outputDir, compression, join, i);
    }
  }

  /**
   * When several files share a trace name, the value is that of the last of
   * them in scan order.
   */
  lemma {:induction false} CollectLastWins(entries: seq<Entry>, linkedId: string, outputDir: string,
                                           compression: bool, join: (string, string) -> string, i: nat)
    requires Collect(entries, linkedId, outputDir, compression, join).Success?
    requires i < |entries| && LastWithTraceName(entries, i, linkedId)
    ensures TraceName(entries[i], linkedId) in Collect(entries, linkedId, outputDir, compression, join).value.values
    ensures Collect(entries, linkedId, outputDir, compression, join).value.values[TraceName(entries[i], linkedId)]
         == PairFor(entries[i], linkedId, outputDir, compression, join)
  {
    CollectKeysComplete(entries, linkedId, outputDir, compression, join, i);
    var n := |entries| - 1;
    if i < n {
      var init := entries[..n];
      assert init[i] == entries[i];
      assert LastWithTraceName(init, i, linkedId) by {
        forall j | i < j < |init| && Contributes(init[j], linkedId)
          ensures TraceName(init[j], linkedId) != TraceName(init[i], linkedId)
        {
          assert init[j] == entries[j];
        }
      }
      CollectLastWins(init, linkedId, outputDir, compression, join, i);
    }
  }

  /**
   * The keys of a scan of a prefix of the entries are a prefix of the keys
   * of the whole scan: a key keeps the position of its first insertion.
   */
  lemma {:induction false} CollectKeysKeepPosition(entries: seq<Entry>, linkedId: string, outputDir: string,
                                                   compression: bool, join: (string, string) -> string, m: nat)
    requires Collect(entries, linkedId, outputDir, compression, join).Success?
    requires m <= |entries|
    ensures Collect(entries[..m], linkedId, outputDir, compression, join).Success?
    ensures var prefixKeys := Collect(entries[..m], linkedId, outputDir, compression, join).value.keys;
      var keys := Collect(entries, linkedId, outputDir, compression, join).value.keys;
      |prefixKeys| <= |keys| && keys[..|prefixKeys|] == prefixKeys
  {
    if m < |entries| {
      var n := |entries| - 1;
      var init := entries[..n];
      assert init[..m] == entries[..m];
      CollectKeysKeepPosition(init, linkedId, outputDir, compression, join, m);
    } else {
      assert entries[..m] == entries;
    }
  }

  /** Once a prefix of the scan has failed, the whole scan fails the same way. */
  lemma {:induction false} CollectFailureSticks(entries: seq<Entry>, linkedId: string, outputDir: string,
                                                compression: bool, join: (string, string) -> string, m: nat)
    requires m <= |entries|
    requires Collect(entries[..m], linkedId, outputDir, compression, join).Failure?
    ensures Collect(entries, linkedId, outputDir, compression, join)
         == Collect(entries[..m], linkedId, outputDir, compression, join)
  {
    if m < |entries| {
      var n := |entries| - 1;
      assert entries[..n][..m] == entries[..m];
      CollectFailureSticks(entries[..n], linkedId, outputDir, compression, join, m);
    } else {
      assert entries[..m] == entries;
    }
  }

  /**
   * Scans the sorted listing, skipping directories, raising on a file named
   * exactly the identifier, and recording each file whose name contains the
   * identifier under its trace name.
   */
  method FindLinkedTraces(listing: seq<Entry>, linkedId: string, outputDir: string, compression: bool,
                          join: (string, string) -> string)
    returns (result: Result<OrderedDict, Error>)
    ensures result == LinkedTraces(listing, linkedId, outputDir, compression, join)
  {
    var fileExtension := if compression then ".et.gz" else ".et";
    var sorted := SortByName(listing);
    var d := EmptyDict;
    for i := 0 to |sorted|
      invariant Collect(sorted[..i], linkedId, outputDir, compression, join) == Success(d)
    {
      var item := sorted[i];
      assert sorted[..i + 1][..i] == sorted[..i];
      if item.isDir {
        continue;
      }
      if item.name == linkedId {
        CollectFailureSticks(sorted, linkedId, outputDir, compression, join, i + 1);
        return Failure(IdentifierIsFileName(item.name));
      }
      if Contains(item.name, linkedId) {
        if linkedId == [] {
          CollectFailureSticks(sorted, linkedId, outputDir, compression, join, i + 1);
          return Failure(EmptySeparator);
        }
        var traceName := BeforeFirst(item.name, linkedId);
        d := Put(d, traceName, FilePair(item.path, join(outputDir, traceName + fileExtension)));
      }
    }
    assert sorted[..|sorted|] == sorted;
    result := Success(d);
  }

  /** The file pairs of `d.items()`, in key order. */
  function Items(d: OrderedDict): (r: seq<FilePair>)
    requires forall k :: k in d.keys ==> k in d.values
    ensures |r| == |d.keys|
  {
    seq(|d.keys|, i requires 0 <= i < |d.keys| => d.values[d.keys[i]])
  }

  /** The converter calls of the loop, one per file pair in order, never simulating. */
  function ConvertCalls(items: seq<FilePair>): (r: seq<Effect>)
    ensures |r| == |items|
  {
    if items == [] then []
    else
      var n := |items| - 1;
      ConvertCalls(items[..n]) + [Effect.Convert(items[n].inputFile, items[n].outputFile, false)]
  }

  /** The `i`-th converter call is for the `i`-th file pair, with `simulate=False`. */
  lemma {:induction false} ConvertCallsAt(items: seq<FilePair>, i: nat)
    requires i < |items|
    ensures ConvertCalls(items)[i] == Effect.Convert(items[i].inputFile, items[i].outputFile, false)
  {
    var n := |items| - 1;
    if i < n {
      ConvertCallsAt(items[..n], i);
    }
  }

  /** The converter calls never exit. */
  lemma {:induction false} ConvertCallsNoExit(items: seq<FilePair>)
    ensures forall c :: c in ConvertCalls(items) ==> !c.Exit?
  {
    if items != [] {
      ConvertCallsNoExit(items[..|items| - 1]);
    }
  }

  lemma ConvertCallsStep(items: seq<FilePair>, idx: nat)
    requires idx < |items|
    ensures ConvertCalls(items[..idx + 1])
         == ConvertCalls(items[..idx]) + [Effect.Convert(items[idx].inputFile, items[idx].outputFile, false)]
  {
    assert items[..idx + 1][..idx] == items[..idx];
  }

  /**
   * What `convert_pytorch_batch` does with a listing: the ValueError of the
   * scan escapes; an empty result exits with -1; otherwise the output
   * directory is created and every entry converted, in dictionary order.
   */
  function ConvertBatchEffects(listing: seq<Entry>, linkedId: string, outputDir: string, compression: bool,
                               join: (string, string) -> string): (r: seq<Effect>)
    ensures 1 <= |r| <= |listing| + 1
  {
    match LinkedTraces(listing, linkedId, outputDir, compression, join)
    case Failure(_) => [Effect.Raise("ValueError")]
    case Success(d) =>
      CollectValid(SortByName(listing), linkedId, outputDir, compression, join);
      ConvertEffects(d, outputDir)
  }

  /**
   * A failed scan converts nothing and raises; a successful one yields a
   * dictionary with unique keys, all of which have an entry, and the batch
   * then does exactly what `ConvertEffects` says about it.
   */
  lemma ConversionOrder(listing: seq<Entry>, linkedId: string, outputDir: string, compression: bool,
                        join: (string, string) -> string)
    ensures var r := LinkedTraces(listing, linkedId, outputDir, compression, join);
      var e := ConvertBatchEffects(listing, linkedId, outputDir, compression, join);
      && (r.Failure? ==> e == [Effect.Raise("ValueError")])
      && (r.Success? ==> ValidDict(r.value) && e == ConvertEffects(r.value, outputDir))
  {
    if LinkedTraces(listing, linkedId, outputDir, compression, join).Success? {
      CollectValid(SortByName(listing), linkedId, outputDir, compression, join);
    }
  }

  /**
   * An empty dictionary exits with -1 before creating or converting
   * anything; otherwise the output directory comes first and then exactly
   * one conversion per trace name, in the dictionary's order, none of them
   * simulated, and nobody exits.
   */
  lemma ConvertEffectsOrder(d: OrderedDict, outputDir: string)
    requires ValidDict(d)
    ensures var e := ConvertEffects(d, outputDir);
      && (d.values == map[] ==> e == [Effect.Exit(-1)])
      && (d.values != map[] ==>
            && |e| == |d.keys| + 1
            && e[0] == Effect.MkDir(outputDir)
            && (forall c :: c in e ==> !c.Exit?)
            && forall i :: 0 <= i < |d.keys| ==>
                 var fp := d.values[d.keys[i]];
                 e[i + 1] == Effect.Convert(fp.inputFile, fp.outputFile, false))
  {
    var e := ConvertEffects(d, outputDir);
    if d.keys != [] {
      assert d.keys[0] in d.values;
      var items := Items(d);
      forall i | 0 <= i < |d.keys|
        ensures e[i + 1] == Effect.Convert(d.values[d.keys[i]].inputFile, d.values[d.keys[i]].outputFile, false)
      {
        ConvertCallsAt(items, i);
      }
      ConvertCallsNoExit(items);
      assert e == [Effect.MkDir(outputDir)] + ConvertCalls(items);
    }
  }

  /**
   * What `convert_pytorch_batch` does with the dictionary: exit with -1 when
   * it is empty, otherwise create the output directory and convert each
   * entry in turn.
   */
  function ConvertEffects(d: OrderedDict, outputDir: string): (r: seq<Effect>)
    requires ValidDict(d)
    ensures |r| == |d.keys| + 1
  {
    if |d.keys| == 0 then [Effect.Exit(-1)]
    else [Effect.MkDir(outputDir)] + ConvertCalls(Items(d))
  }

  /** The `for` loop of `convert_pytorch_batch`: one conversion per file pair, in order. */
  method ConvertAll(world: World, items: seq<FilePair>)
    modifies world
    ensures world.log == old(world.log) + ConvertCalls(items)
  {
    for idx := 0 to |items|
      invariant world.log == old(world.log) + ConvertCalls(items[..idx])
    {
      var filePair := items[idx];
      ConvertCallsStep(items, idx);
      world.Convert(filePair.inputFile, filePair.outputFile, false);
    }
    assert items[..|items|] == items;
  }

  /** `convert_pytorch_batch` once the dictionary is known. */
  method ConvertTracePairs(world: World, tracePairs: OrderedDict, outputDir: string)
    requires ValidDict(tracePairs)
    modifies world
    ensures world.log == old(world.log) + ConvertEffects(tracePairs, outputDir)
  {
    if |tracePairs.keys| == 0 {
      world.Exit(-1);
      return;
    }
    world.MkDir(outputDir);
    ConvertAll(world, Items(tracePairs));
  }

  /** `convert_pytorch_batch` after argument parsing. */
  method ConvertPytorchBatch(world: World, listing: seq<Entry>, linkedId: string, outputDir: string,
                             compression: bool, join: (string, string) -> string)
    modifies world
    ensures world.log == old(world.log) + ConvertBatchEffects(listing, linkedId, outputDir, compression, join)
  {
    var tracePairs := FindLinkedTraces(listing, linkedId, outputDir, compression, join);
    if tracePairs.Failure? {
      world.Raise("ValueError");
      return;
    }
    CollectValid(SortByName(listing), linkedId, outputDir, compression, join);
    ConvertTracePairs(world, tracePairs.value, outputDir);
  }
}
