/** The conversion of one jslot record into one slider-preset document, and
    the per-file decision of the driver loop that surrounds it. */
module Program {
  import opened Wrappers
  import opened JSlot
  import opened SliderPresets

  const SIZE_SMALL: string := "small"
  const SIZE_BIG: string := "big"

  /** The only key identifier whose morphs become sliders. */
  const MORPH_KEY: string := "RaceMenuMorphsCBBE.esp"

  /** Factor between a jslot key value and a slider value. */
  const SCALE: real := 100.0

  const PRESET_SET: string := "RaceMenu"
  const PRESET_NAME_PREFIX: string := "RaceMenu - "

  /** The six group labels every preset carries, in this order. */
  const GROUP_NAMES: seq<string> :=
    ["3BA", "3BBB", "BHUNP 3BBB", "CBBE bodies", "COCO CBBE 3BBB", "COCO UUNP 3BBB"]

  /** `Keys.FirstOrDefault()`: the default (null) for a morph without keys,
      otherwise the first element, which may itself be null. */
  function FirstKey(keys: seq<Option<BodyMorphKey>>): (r: Option<BodyMorphKey>)
    ensures keys == [] ==> r.None?
    ensures keys != [] ==> r == keys[0]
  {
    if keys == [] then None else keys[0]
  }

  /** A morph is kept when its first key element exists, is not null, and has
      exactly the identifier `MORPH_KEY`; later keys play no part. This is the
      negation of the guard `key is null or not { Key: MORPH_KEY }` on what
      `FirstKey` returns. */
  predicate Qualifies(morph: BodyMorph): (r: bool)
    ensures r <==> FirstKey(morph.keys).Some? && FirstKey(morph.keys).value.key == MORPH_KEY
  {
    |morph.keys| > 0 && morph.keys[0].Some? && morph.keys[0].value.key == MORPH_KEY
  }

  /** The value of a qualifying morph's first key. */
  function KeyValue(morph: BodyMorph): real
    requires Qualifies(morph)
  {
    morph.keys[0].value.value
  }

  /** What one step of the aggregate appends for `morph`: nothing, or the
      small and the big slider valued at the first key's value times 100. */
  function MorphSliders(morph: BodyMorph): (r: seq<Slider>)
    ensures |r| == if Qualifies(morph) then 2 else 0
    ensures forall s :: s in r ==> s.name == morph.name && s.value == KeyValue(morph) * SCALE
    ensures |r| == 2 ==> r[0].size == SIZE_SMALL && r[1].size == SIZE_BIG
  {
    match FirstKey(morph.keys)
    case None => []
    case Some(key) =>
      if key.key != MORPH_KEY then []
      else [Slider(morph.name, SIZE_SMALL, key.value * SCALE), Slider(morph.name, SIZE_BIG, key.value * SCALE)]
  }

  /** The slider list the aggregate over `morphs` leaves in its accumulator,
      as a left fold: the last morph's contribution goes at the end. Every
      slider in it has size "small" or "big". */
  function SliderList(morphs: seq<BodyMorph>): (r: seq<Slider>)
    ensures forall s :: s in r ==> s.size == SIZE_SMALL || s.size == SIZE_BIG
  {
    if morphs == [] then []
    else SliderList(morphs[..|morphs| - 1]) + MorphSliders(morphs[|morphs| - 1])
  }

  /** The morphs that pass the filter, in their original order, duplicates
      kept (the order is stated by `SliderProperties.QualifyingFilter`). */
  function Qualifying(morphs: seq<BodyMorph>): (r: seq<BodyMorph>)
    ensures forall i :: 0 <= i < |r| ==> Qualifies(r[i])
    ensures forall m :: m in r <==> m in morphs && Qualifies(m)
  {
    if morphs == [] then []
    else
      var last := morphs[|morphs| - 1];
      Qualifying(morphs[..|morphs| - 1]) + (if Qualifies(last) then [last] else [])
  }

  /** The aggregate: starts from an empty accumulator and, morph by morph,
      either leaves it alone or appends the small/big pair to it. */
  method BuildSliders(morphs: seq<BodyMorph>) returns (acc: seq<Slider>)
    ensures acc == SliderList(morphs)
  {
    acc := [];
    var i := 0;
    while i < |morphs|
      invariant 0 <= i <= |morphs|
      invariant acc == SliderList(morphs[..i])
    {
      var morph := morphs[i];
      var key := FirstKey(morph.keys);
      if key.Some? && key.value.key == MORPH_KEY {
        acc := acc + [Slider(morph.name, SIZE_SMALL, key.value.value * SCALE),
                      Slider(morph.name, SIZE_BIG, key.value.value * SCALE)];
      }
      assert morphs[..i + 1][..i] == morphs[..i];
      i := i + 1;
    }
    assert morphs[..i] == morphs;
  }

  /** The six `Group` elements, built from `GROUP_NAMES`. */
  function Groups(): (r: seq<Group>)
    ensures |r| == |GROUP_NAMES|
    ensures forall i :: 0 <= i < |r| ==> r[i].name == GROUP_NAMES[i]
  {
    seq(|GROUP_NAMES|, i requires 0 <= i < |GROUP_NAMES| => Group(GROUP_NAMES[i]))
  }

  /** `doc` is the document the converter builds for `data` read from the file
      whose base name is `baseName`: one preset with the derived name, the
      fixed set and groups, and the sliders of the fold. */
  predicate ConvertedFrom(doc: Document, data: JSlotObject, baseName: string) {
    |doc.presets| == 1 &&
    doc.presets[0].name == PRESET_NAME_PREFIX + baseName &&
    doc.presets[0].setName == PRESET_SET &&
    doc.presets[0].groups ==
      [Group("3BA"), Group("3BBB"), Group("BHUNP 3BBB"), Group("CBBE bodies"),
       Group("COCO CBBE 3BBB"), Group("COCO UUNP 3BBB")] &&
    doc.presets[0].sliders == SliderList(data.bodyMorphs)
  }

  /** Builds the document for one jslot record whose file's base name
      (extension stripped) is `baseName`. */
  method Convert(data: JSlotObject, baseName: string) returns (doc: Document)
    ensures ConvertedFrom(doc, data, baseName)
  {
    var sliders := BuildSliders(data.bodyMorphs);
    var groups := Groups();
    doc := Document([Preset(PRESET_NAME_PREFIX + baseName, PRESET_SET, groups, sliders)]);
  }

  /** What awaiting the reader on an input file gives the driver. */
  datatype ReadResult =
    | NoData                   // the file does not exist, or its JSON text is `null`
    | Malformed                // the reader throws: File.OpenRead fails, the JSON is invalid, or a required property is missing
    | Parsed(data: JSlotObject)

  /** What the driver loop does with one input file. */
  datatype FileOutcome =
    | SkippedExisting          // the output file was already there: nothing read, nothing written
    | SkippedInvalid           // the reader returned no data
    | Aborted                  // the reader's exception leaves the loop: this and every later file stay unprocessed
    | Created(doc: Document)   // this document is written to the output file

  /** One iteration of the driver loop. `outputExists` is the answer of the
      existence check on `<base>.xml`; `readResult` is what the reader would
      give for the input file, and is consulted only when the output is absent. */
  method ProcessFile(outputExists: bool, readResult: ReadResult, baseName: string)
    returns (outcome: FileOutcome)
    ensures outputExists <==> outcome.SkippedExisting?
    ensures outcome.SkippedInvalid? <==> !outputExists && readResult.NoData?
    ensures outcome.Aborted? <==> !outputExists && readResult.Malformed?
    ensures outcome.Created? <==> !outputExists && readResult.Parsed?
    ensures outcome.Created? ==> ConvertedFrom(outcome.doc, readResult.data, baseName)
  {
    if outputExists {
      return SkippedExisting;
    }
    match readResult
    case NoData =>
      outcome := SkippedInvalid;
    case Malformed =>
      outcome := Aborted;
    case Parsed(data) =>
      var doc := Convert(data, baseName);
      outcome := Created(doc);
  }
}
