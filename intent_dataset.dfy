/**
 * The intent dataset: a dataset of `(text, labels)` samples split into named
 * parts, whose construction extracts the class vocabulary and writes it to a
 * file, optionally merges several splits into one, optionally carves one
 * split into several, and optionally preprocesses the texts.
 */
module IntentDatasets {
  import opened Wrappers
  import opened Strings
  import opened DataDict
  import opened Classes
  import opened Merging
  import opened Splitting
  import opened Preprocessing

  /** The exceptions construction can raise. */
  datatype Error =
    | ConfigError(message: string)       // IOError: a required companion option is missing
    | KeyError(key: Key)                 // a split that a merge or split reads does not exist
    | UnknownPreprocessor(name: string)  // the preprocessor registry has no such name
    | MissingProportions                 // split targets given without `split_proportions`

  const MergeTargetMissing: string := "Given fields to merge BUT not given name of merged field"
  const SplitTargetsMissing: string := "Given field to split BUT not given names of split fields"

  /**
   * The constructor's options. Field lists are space-separated strings, as in
   * the configuration; the proportions are already parsed.
   */
  datatype Config = Config(
    datasetPath: Option<string>,
    datasetDir: string,
    datasetFile: string,
    extractClasses: bool,
    classesFile: Option<string>,
    fieldsToMerge: Option<string>,
    mergedField: Option<string>,
    fieldToSplit: Option<string>,
    splitFields: Option<string>,
    splitProportions: Option<seq<Proportion>>,
    prepMethodName: Option<string>)

  /** The constructor's default options. */
  const Defaults: Config := Config(None, "intents", "classes.txt", true, None, None, None, None, None, None, None)

  /** With the default options the classes go to `<user dir>/intents/classes.txt`. */
  lemma DefaultsClassesPath(usrPath: string)
    ensures ClassesPath(Defaults, usrPath) == Path(usrPath, ["intents", "classes.txt"])
  {
  }

  /** The classes file that construction writes: where, and what. */
  datatype ClassesFile = ClassesFile(path: Path, text: string)

  /** The classes file path: `classes_file` when given, otherwise the default location. */
  function ClassesPath(cfg: Config, usrPath: string): (p: Path)
    ensures cfg.classesFile.Some? ==> p == Path(cfg.classesFile.value, [])
    ensures cfg.classesFile.None? ==> p == Path(cfg.datasetPath.GetOr(usrPath), [cfg.datasetDir, cfg.datasetFile])
  {
    match cfg.classesFile
    case Some(file) => Path(file, [])
    case None => DefaultClassesPath(cfg.datasetPath, usrPath, cfg.datasetDir, cfg.datasetFile)
  }

  /** The merge step of construction: the new data, or the error it raises. */
  function MergeStep(d: Dict, cfg: Config): (r: Result<Dict, Error>)
    requires d.AllChunks()
    ensures r.Success? ==> r.value.AllChunks() && (d.Valid() ==> r.value.Valid())
    ensures cfg.fieldsToMerge.None? ==> r == Success(d)
    ensures cfg.fieldsToMerge.Some? && cfg.mergedField.None? ==> r == Failure(ConfigError(MergeTargetMissing))
    ensures r.Failure? && cfg.mergedField.Some? ==> r.error.KeyError? && r.error.key !in d.values
  {
    match cfg.fieldsToMerge
    case None => Success(d)
    case Some(fields) =>
      match cfg.mergedField
      case None => Failure(ConfigError(MergeTargetMissing))
      case Some(target) =>
        var names := SplitOnSpace(fields);
        if Present(d, names) then Success(Merged(d, names, target))
        else Failure(KeyError(Split(FirstMissing(d, names))))
  }

  /** When the split step runs, its targets and proportions suit the source split. */
  ghost predicate SplitFeasible(d: Dict, cfg: Config)
    requires d.AllChunks()
  {
    cfg.fieldToSplit.Some? && cfg.splitFields.Some? && cfg.splitProportions.Some? &&
    Split(cfg.fieldToSplit.value) in d.values ==>
      SplitFits(|d.values[Split(cfg.fieldToSplit.value)].samples|, SplitOnSpace(cfg.splitFields.value), cfg.splitProportions.value)
  }

  /** The split step of construction: the new data, or the error it raises. */
  function SplitStep(d: Dict, cfg: Config, shuffle: Shuffle): (r: Result<Dict, Error>)
    requires d.AllChunks() && Permutes(shuffle) && SplitFeasible(d, cfg)
    ensures r.Success? ==> r.value.AllChunks() && (d.Valid() ==> r.value.Valid())
    ensures cfg.fieldToSplit.None? ==> r == Success(d)
    ensures cfg.fieldToSplit.Some? && cfg.splitFields.None? ==> r == Failure(ConfigError(SplitTargetsMissing))
  {
    match cfg.fieldToSplit
    case None => Success(d)
    case Some(source) =>
      match cfg.splitFields
      case None => Failure(ConfigError(SplitTargetsMissing))
      case Some(fields) =>
        match cfg.splitProportions
        case None => Failure(MissingProportions)
        case Some(ps) =>
          if Split(source) !in d.values then Failure(KeyError(Split(source)))
          else Success(SplitResult(d, source, SplitOnSpace(fields), ps, shuffle))
  }

  /** The preprocessing step of construction: the new data, or the error it raises. */
  function PrepStep(d: Dict, cfg: Config, registry: map<string, Prep>): (r: Result<Dict, Error>)
    requires d.Valid() && d.AllChunks()
    requires forall name :: name in registry ==> AnswersSingletons(registry[name])
    ensures r.Success? ==> r.value.Valid()
    ensures cfg.prepMethodName.None? || cfg.prepMethodName == Some("") ==> r == Success(d)
    ensures cfg.prepMethodName.Some? && cfg.prepMethodName.value != "" && cfg.prepMethodName.value in registry ==>
      r == Success(Preprocessed(d, registry[cfg.prepMethodName.value]))
    ensures r.Failure? ==>
      (cfg.prepMethodName.Some? && cfg.prepMethodName.value !in registry
       && r.error == UnknownPreprocessor(cfg.prepMethodName.value))
  {
    if cfg.prepMethodName.Some? && cfg.prepMethodName.value != "" then
      var name := cfg.prepMethodName.value;
      if name !in registry then Failure(UnknownPreprocessor(name))
      else
        PreprocessedKeys(d, registry[name]);
        Success(Preprocessed(d, registry[name]))
    else Success(d)
  }

  class IntentDataset {
    /** The dataset's dictionary from split names (and, after preprocessing, positions) to samples. */
    var data: Dict
    /** The seed given to the base dataset; the split step does not use it. */
    const seed: Option<int>
    var classes: Option<seq<string>>
    var prepMethodName: Option<string>

    ghost predicate Valid()
      reads this
    {
      data.Valid()
    }

    /** The base dataset's construction, then `self.classes = None`. */
    constructor (data: Dict, seed: Option<int>)
      requires data.Valid()
      ensures Valid()
      ensures this.data == data && this.seed == seed
      ensures classes == None && prepMethodName == None
    {
      this.data := data;
      this.seed := seed;
      classes := None;
      prepMethodName := None;
    }

    /**
     * The rest of the constructor. On an exception it returns the error, and
     * the state is the one at the moment the exception was raised.
     */
    method Setup(cfg: Config, usrPath: string, registry: map<string, Prep>, shuffle: Shuffle)
      returns (r: Outcome<Error>, saved: Option<ClassesFile>)
      requires Valid() && data.AllChunks()
      requires cfg.extractClasses ==> Split("train") in data.values
      requires Permutes(shuffle)
      requires forall name :: name in registry ==> AnswersSingletons(registry[name])
      requires MergeStep(data, cfg).Success? ==> SplitFeasible(MergeStep(data, cfg).value, cfg)
      modifies this
      ensures Valid()
      ensures classes == (if cfg.extractClasses then Some(ClassesOf(old(data))) else old(classes))
      ensures saved == (if cfg.extractClasses
        then Some(ClassesFile(ClassesPath(cfg, usrPath), Lines(ClassesOf(old(data)))))
        else None)
      ensures cfg.fieldsToMerge.Some? && cfg.mergedField.None? ==>
        r == Fail(ConfigError(MergeTargetMissing)) && data == old(data)
      ensures MergeStep(old(data), cfg).Success? && cfg.fieldToSplit.Some? && cfg.splitFields.None? ==>
        r == Fail(ConfigError(SplitTargetsMissing)) && data == MergeStep(old(data), cfg).value
      ensures MergeStep(old(data), cfg).Failure? ==>
        r == Fail(MergeStep(old(data), cfg).error) && data == old(data) && prepMethodName == old(prepMethodName)
      ensures MergeStep(old(data), cfg).Success? ==>
        var merged := MergeStep(old(data), cfg).value;
        var split := SplitStep(merged, cfg, shuffle);
        if split.Failure? then
          r == Fail(split.error) && data == merged && prepMethodName == old(prepMethodName)
        else
          var prepared := PrepStep(split.value, cfg, registry);
          && prepMethodName == cfg.prepMethodName
          && (if prepared.Failure? then r == Fail(prepared.error) && data == split.value
              else r == Pass && data == prepared.value)
    {
      saved := None;
      if cfg.extractClasses {
        var extracted := ExtractClasses();
        classes := Some(extracted);
        var text := SerializeClasses(extracted);
        saved := Some(ClassesFile(ClassesPath(cfg, usrPath), text));
      }
      r := MergePhase(cfg);
      if r.Fail? {
        return;
      }
      r := SplitPhase(cfg, shuffle);
      if r.Fail? {
        return;
      }
      r := PrepPhase(cfg, registry);
    }

    /** Lines 44-51 of the constructor: merge when asked to, or raise. */
    method MergePhase(cfg: Config) returns (r: Outcome<Error>)
      requires Valid() && data.AllChunks()
      modifies this`data
      ensures Valid() && data.AllChunks()
      ensures MergeStep(old(data), cfg).Success? ==> r == Pass && data == MergeStep(old(data), cfg).value
      ensures MergeStep(old(data), cfg).Failure? ==> r == Fail(MergeStep(old(data), cfg).error) && data == old(data)
    {
      r := Pass;
      if cfg.fieldsToMerge.Some? {
        if cfg.mergedField.Some? {
          r := MergeData(SplitOnSpace(cfg.fieldsToMerge.value), cfg.mergedField.value);
        } else {
          r := Fail(ConfigError(MergeTargetMissing));
        }
      }
    }

    /** Lines 53-62 of the constructor: split when asked to, or raise. */
    method SplitPhase(cfg: Config, shuffle: Shuffle) returns (r: Outcome<Error>)
      requires Valid() && data.AllChunks() && Permutes(shuffle) && SplitFeasible(data, cfg)
      modifies this`data
      ensures Valid() && data.AllChunks()
      ensures SplitStep(old(data), cfg, shuffle).Success? ==> r == Pass && data == SplitStep(old(data), cfg, shuffle).value
      ensures SplitStep(old(data), cfg, shuffle).Failure? ==> r == Fail(SplitStep(old(data), cfg, shuffle).error) && data == old(data)
    {
      r := Pass;
      if cfg.fieldToSplit.Some? {
        if cfg.splitFields.Some? {
          if cfg.splitProportions.None? {
            return Fail(MissingProportions);
          }
          r := SplitData(cfg.fieldToSplit.value, SplitOnSpace(cfg.splitFields.value), cfg.splitProportions.value, shuffle);
        } else {
          r := Fail(ConfigError(SplitTargetsMissing));
        }
      }
    }

    /** Lines 64-67 of the constructor: record the preprocessor's name, then preprocess when one is named. */
    method PrepPhase(cfg: Config, registry: map<string, Prep>) returns (r: Outcome<Error>)
      requires Valid() && data.AllChunks()
      requires forall name :: name in registry ==> AnswersSingletons(registry[name])
      modifies this`data, this`prepMethodName
      ensures Valid() && prepMethodName == cfg.prepMethodName
      ensures PrepStep(old(data), cfg, registry).Success? ==> r == Pass && data == PrepStep(old(data), cfg, registry).value
      ensures PrepStep(old(data), cfg, registry).Failure? ==> r == Fail(PrepStep(old(data), cfg, registry).error) && data == old(data)
    {
      prepMethodName := cfg.prepMethodName;
      r := Pass;
      if cfg.prepMethodName.Some? && cfg.prepMethodName.value != "" {
        var name := cfg.prepMethodName.value;
        if name !in registry {
          return Fail(UnknownPreprocessor(name));
        }
        data := Preprocess(registry[name]);
      }
    }

    /**
     * `_extract_classes`: the labels of the train split and, when present, the
     * valid split, without duplicates and in increasing order.
     */
    method ExtractClasses() returns (intents: seq<string>)
      requires data.AllChunks() && Split("train") in data.values
      ensures intents == ClassesOf(data)
      ensures StrictlySorted(intents)
      ensures forall c :: c in intents <==>
        || Labelled(data.values[Split("train")].samples, c)
        || (Split("valid") in data.values && Labelled(data.values[Split("valid")].samples, c))
    {
      var labels: seq<string> := [];
      var train := data.values[Split("train")].samples;
      for j := 0 to |train|
        invariant labels == AllLabels(train[..j])
      {
        assert train[..j + 1][..j] == train[..j];
        labels := labels + train[j].labels;
      }
      assert train[..|train|] == train;
      if Split("valid") in data.values {
        var valid := data.values[Split("valid")].samples;
        for j := 0 to |valid|
          invariant labels == AllLabels(train) + AllLabels(valid[..j])
        {
          assert valid[..j + 1][..j] == valid[..j];
          labels := labels + valid[j].labels;
        }
        assert valid[..|valid|] == valid;
      }
      assert labels == IntentLabels(data);
      intents := SortedUnique(labels);
    }

    /**
     * `_merge_data`: `merged_field` receives the samples of `fields_to_merge`
     * in listed order, read from the data as it was before the merge; a
     * missing split raises `KeyError` before the data is replaced.
     */
    method MergeData(fieldsToMerge: seq<string>, mergedField: string) returns (r: Outcome<Error>)
      requires Valid() && data.AllChunks()
      modifies this`data
      ensures Valid() && data.AllChunks()
      ensures Present(old(data), fieldsToMerge) ==>
        r == Pass && data == Merged(old(data), fieldsToMerge, mergedField)
      ensures !Present(old(data), fieldsToMerge) ==>
        r == Fail(KeyError(Split(FirstMissing(old(data), fieldsToMerge)))) && data == old(data)
    {
      var d := data;
      var copy := d.Put(Split(mergedField), Chunk([]));
      for i := 0 to |fieldsToMerge|
        invariant data == d
        invariant Present(d, fieldsToMerge[..i])
        invariant copy == d.Put(Split(mergedField), Chunk(Concat(d, fieldsToMerge[..i])))
      {
        var name := fieldsToMerge[i];
        if Split(name) !in d.values {
          FirstMissingIs(d, fieldsToMerge, i);
          return Fail(KeyError(Split(name)));
        }
        ConcatStep(d, fieldsToMerge, i);
        PutTwice(d, Split(mergedField), Chunk(Concat(d, fieldsToMerge[..i])), Chunk(Concat(d, fieldsToMerge[..i + 1])));
        copy := copy.Put(Split(mergedField), Chunk(copy.values[Split(mergedField)].samples + d.values[Split(name)].samples));
      }
      assert fieldsToMerge[..|fieldsToMerge|] == fieldsToMerge;
      data := copy;
      r := Pass;
    }

    /**
     * `_split_data`: the source split's samples go, fragment by fragment, to
     * the split fields; a missing source raises `KeyError` before any write.
     */
    method SplitData(fieldToSplit: string, splitFields: seq<string>, splitProportions: seq<Proportion>, shuffle: Shuffle)
      returns (r: Outcome<Error>)
      requires Valid() && data.AllChunks() && Permutes(shuffle)
      requires Split(fieldToSplit) in data.values ==>
        SplitFits(|data.values[Split(fieldToSplit)].samples|, splitFields, splitProportions)
      modifies this`data
      ensures Valid() && data.AllChunks()
      ensures Split(fieldToSplit) !in old(data).values ==>
        r == Fail(KeyError(Split(fieldToSplit))) && data == old(data)
      ensures Split(fieldToSplit) in old(data).values ==>
        r == Pass && data == SplitResult(old(data), fieldToSplit, splitFields, splitProportions, shuffle)
    {
      if Split(fieldToSplit) !in data.values {
        return Fail(KeyError(Split(fieldToSplit)));
      }
      var dataToDiv := data.values[Split(fieldToSplit)].samples;
      var dataSize := |dataToDiv|;
      ghost var sizes := SourceSizes(data, fieldToSplit, splitFields, splitProportions);
      ghost var result := SplitResult(data, fieldToSplit, splitFields, splitProportions, shuffle);
      CarveIsSplitResult(data, fieldToSplit, splitFields, splitProportions, shuffle);
      var i := 0;
      while i < |splitFields| - 1
        invariant 0 <= i <= |splitFields| - 1 == |sizes|
        invariant Admissible(|dataToDiv|, sizes, i)
        invariant Carve(data, dataToDiv, splitFields, sizes, shuffle, i) == result
      {
        var trainSize := Take(dataSize, splitProportions[i]);
        SizesAt(dataSize, splitProportions[..|splitFields| - 1], i);
        assert trainSize == sizes[i];
        CarveStep(data, dataToDiv, splitFields, sizes, shuffle, i, trainSize);
        var parts := TrainTestSplit(dataToDiv, |dataToDiv| - trainSize, shuffle, i);
        data := data.Put(Split(splitFields[i]), Chunk(parts.0));
        dataToDiv := parts.1;
        i := i + 1;
      }
      data := data.Put(Split(splitFields[i]), Chunk(dataToDiv));
      r := Pass;
    }

    /**
     * `preprocess`: a deep copy of the data in which, for each split in turn
     * and each of its positions `i`, key `i` receives the split's sample `i`
     * with its text transformed and its labels kept.
     */
    method Preprocess(prep: Prep) returns (copy: Dict)
      requires Valid() && data.AllChunks() && AnswersSingletons(prep)
      ensures copy == Preprocessed(data, prep) && copy.Valid()
    {
      var d := data;
      assert forall k :: k in d.keys ==> k in d.values;
      copy := d;
      for j := 0 to |d.keys|
        invariant forall k :: k in d.keys[..j] ==> k in d.values
        invariant copy == PrepSplits(d, d.keys[..j], prep)
      {
        var chunk := d.values[d.keys[j]].samples;
        ghost var before := copy;
        for i := 0 to |chunk|
          invariant copy == PrepChunk(before, chunk[..i], prep)
        {
          PrepChunkStep(before, chunk, i, prep);
          copy := copy.Put(Index(i), Record(PrepSample(prep, chunk[i])));
        }
        assert chunk[..|chunk|] == chunk;
        PrepSplitsStep(d, d.keys, j, prep);
      }
      assert d.keys[..|d.keys|] == d.keys;
      PreprocessedKeys(d, prep);
    }
  }

  /** When the first `i` names are present and name `i` is not, name `i` is the first missing one. */
  lemma FirstMissingIs(d: Dict, names: seq<string>, i: nat)
    requires i < |names| && Present(d, names[..i]) && Split(names[i]) !in d.values
    ensures !Present(d, names) && FirstMissing(d, names) == names[i]
  {
    var n := FirstMissing(d, names);
    var j :| 0 <= j < |names| && names[j] == n && Present(d, names[..j]);
    assert names[i] in names[..i + 1];
  }
}
