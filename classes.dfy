/**
 * Class extraction: the label vocabulary of the train and valid splits, the
 * text of the classes file and the path it is written to.
 */
module Classes {
  import opened Wrappers
  import opened Strings
  import opened DataDict

  /** Some sample of `samples` carries the label `c`. */
  ghost predicate Labelled(samples: seq<Sample>, c: string)
  {
    exists j :: 0 <= j < |samples| && c in samples[j].labels
  }

  /** The labels of `samples` one after the other, as `intents.extend(sample[1])` collects them. */
  function AllLabels(samples: seq<Sample>): (labels: seq<string>)
    ensures forall c :: c in labels <==> Labelled(samples, c)
    decreases |samples|
  {
    if samples == [] then []
    else
      var init := samples[..|samples| - 1];
      var labels := AllLabels(init) + samples[|samples| - 1].labels;
      assert forall j :: 0 <= j < |init| ==> init[j] == samples[j];
      labels
  }

  /** The labels collected from "train" and, when that key exists, from "valid". */
  function IntentLabels(d: Dict): seq<string>
    requires d.AllChunks() && Split("train") in d.values
  {
    AllLabels(d.values[Split("train")].samples)
      + (if Split("valid") in d.values then AllLabels(d.values[Split("valid")].samples) else [])
  }

  /**
   * The extracted classes: sorted, without duplicates, and holding exactly the
   * labels of the train split and, if present, the valid split.
   */
  function ClassesOf(d: Dict): (classes: seq<string>)
    requires d.AllChunks() && Split("train") in d.values
    ensures StrictlySorted(classes)
    ensures forall c :: c in classes <==>
      || Labelled(d.values[Split("train")].samples, c)
      || (Split("valid") in d.values && Labelled(d.values[Split("valid")].samples, c))
  {
    SortedUnique(IntentLabels(d))
  }

  /** The classes file text: every class followed by a newline, in order. */
  function Lines(classes: seq<string>): string
    decreases |classes|
  {
    if classes == [] then "" else classes[0] + "\n" + Lines(classes[1..])
  }

  lemma {:induction false} LinesAppend(classes: seq<string>, c: string)
    ensures Lines(classes + [c]) == Lines(classes) + (c + "\n")
    decreases |classes|
  {
    if classes == [] {
      assert [] + [c] == [c];
    } else {
      assert (classes + [c])[1..] == classes[1..] + [c];
      LinesAppend(classes[1..], c);
    }
  }

  /** The position of the first newline of `t`, or `|t|` when there is none. */
  function FirstNewline(t: string): (k: nat)
    ensures k <= |t|
    ensures forall j :: 0 <= j < k ==> t[j] != '\n'
    ensures k < |t| ==> t[k] == '\n'
    decreases |t|
  {
    if t == [] || t[0] == '\n' then 0 else 1 + FirstNewline(t[1..])
  }

  /** Reads a classes file back: the lines of `text`, each without its newline. */
  function ReadLines(text: string): seq<string>
    decreases |text|
  {
    if text == [] then []
    else
      var k := FirstNewline(text);
      [text[..k]] + (if k < |text| then ReadLines(text[k + 1..]) else [])
  }

  /** Reading back what was written gives the classes, when no class holds a newline. */
  lemma {:induction false} ReadLinesAfterLines(classes: seq<string>)
    requires forall c :: c in classes ==> '\n' !in c
    ensures ReadLines(Lines(classes)) == classes
    decreases |classes|
  {
    if classes != [] {
      var c := classes[0];
      assert c in classes;
      var rest := Lines(classes[1..]);
      var text := c + "\n" + rest;
      assert text[|c|] == '\n';
      assert forall j :: 0 <= j < |c| ==> text[j] == c[j];
      var k := FirstNewline(text);
      assert k == |c|;
      assert text[..k] == c;
      assert text[k + 1..] == rest;
      assert forall x :: x in classes[1..] ==> x in classes;
      ReadLinesAfterLines(classes[1..]);
    }
  }

  /**
   * Writes the classes one per line (the loop at lines 42-43), collecting the
   * text the file receives.
   */
  method SerializeClasses(classes: seq<string>) returns (text: string)
    ensures text == Lines(classes)
    ensures (forall c :: c in classes ==> '\n' !in c) ==> ReadLines(text) == classes
  {
    text := "";
    for i := 0 to |classes|
      invariant text == Lines(classes[..i])
    {
      LinesAppend(classes[..i], classes[i]);
      assert classes[..i + 1] == classes[..i] + [classes[i]];
      text := text + (classes[i] + "\n");
    }
    assert classes[..|classes|] == classes;
    if forall c :: c in classes ==> '\n' !in c {
      ReadLinesAfterLines(classes);
    }
  }

  /** Labels "greet", "farewell", "greet" give the classes "farewell", "greet" and the file "farewell\ngreet\n". */
  lemma ClassesExample()
    ensures SortedUnique(["greet", "farewell", "greet"]) == ["farewell", "greet"]
    ensures Lines(["farewell", "greet"]) == "farewell\ngreet\n"
  {
    var expected := ["farewell", "greet"];
    assert Less("farewell", "greet");
    SortedUniqueDetermined(SortedUnique(["greet", "farewell", "greet"]), expected);
  }

  /** A filesystem path: a starting location and the components joined onto it. */
  datatype Path = Path(root: string, parts: seq<string>) {

    /** `Path.joinpath(*more)` */
    function JoinPath(more: seq<string>): Path
    {
      Path(root, parts + more)
    }
  }

  /**
   * Where the classes go when no `classes_file` is given: the user directory
   * (or `dataset_path` when given), then `dataset_dir`, then `dataset_file`.
   */
  function DefaultClassesPath(datasetPath: Option<string>, usrPath: string, datasetDir: string, datasetFile: string): (p: Path)
    ensures p.root == datasetPath.GetOr(usrPath)
    ensures p.parts == [datasetDir, datasetFile]
  {
    match datasetPath
    case None => Path(usrPath, []).JoinPath([datasetDir, datasetFile])
    case Some(dir) =>
      var serDir := Path(dir, []).JoinPath([datasetDir]);
      serDir.JoinPath([datasetFile])
  }
}
