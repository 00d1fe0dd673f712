# RM2BS slider-preset conversion, modelled in Dafny

RM2BS turns RaceMenu character presets (`.jslot` files, JSON) into
BodySlide slider presets (XML). For each input file the driver loop skips the
file when `<base>.xml` already exists, skips it with an "invalid data" notice
when the reader returns nothing, and otherwise builds one `SliderPresets`
document holding one `Preset`: named `RaceMenu - <base>`, set `RaceMenu`,
carrying six fixed groups, and one `small` and one `big` slider for every body
morph whose first key is `RaceMenuMorphsCBBE.esp`, valued at that key's value
times 100.

Layout:

- `wrappers.dfy` — `Option`, standing for the nullable references.
- `jslot.dfy` — module `JSlot`: the input record (`JSlotObject`, `BodyMorph`, `BodyMorphKey`, `ActorInfo`).
- `slider_presets.dfy` — module `SliderPresets`: the output document (`Document`, `Preset`, `Group`, `Slider`). The `set` attribute is the field `setName`, because `set` is a Dafny keyword.
- `program.dfy` — module `Program`: the constants, the per-morph step, the fold specification `SliderList`, the loop `BuildSliders` that mirrors the `Aggregate` with its in-place `AddRange`, the document builder `Convert`, and the per-file decision `ProcessFile`.
- `slider_properties.dfy` — module `SliderProperties`: what the slider list is, stated against the filtered morph list `Qualifying`, independently of the fold.

C# `decimal` is modelled as `real`, so `value * 100` is exact (0.35 gives 35, 0.125 gives 12.5).

JSON `null` is accepted by the deserializer for the elements of a morph's
`keys` array; such an element is `None` in the model, and a morph whose first
key is null is skipped, as the guard `key is null` does.

A read that fails is not a skip. `ReadJSlotFile` returns `null` only for a
missing file or a file whose JSON text is `null` (Program.cs:100-104); those
give the `Invalid data found at …, skipping` notice (Program.cs:126-129).
Any other failure of the read (`File.OpenRead` fails, the JSON is invalid, or
a required property is missing) makes the reader throw; nothing in `Main`
catches it, so the run stops at that file. The model follows this:
`ProcessFile` yields `Aborted` for a `Malformed` read.

## Model

| member | source | states |
|---|---|---|
| `Program.FirstKey` | Program.cs:150 | `FirstOrDefault` over the key elements: null for a morph without keys, otherwise the first element, itself possibly null |
| `Program.Qualifies` | Program.cs:150-151 | a morph is kept exactly when `FirstOrDefault` gives a non-null key whose identifier is `RaceMenuMorphsCBBE.esp`, the negation of the guard `key is null or not { Key: … }` |
| `Program.MorphSliders` | Program.cs:150-159 | one aggregate step contributes two sliders when the morph qualifies and none otherwise; both carry the morph's name and 100 times its first key's value; the first is `small`, the second `big` |
| `Program.SliderList` | Program.cs:148-161 | the accumulator left by the aggregate, as a left fold over the morphs; every slider in it has size `small` or `big` |
| `Program.Qualifying` | Program.cs:151 | the filtered morph list holds exactly the morphs of the input that qualify, and every element qualifies |
| `Program.BuildSliders` | Program.cs:148-161 | the loop that appends each kept morph's pair to the accumulator ends with exactly the fold specification `SliderList` of the morphs |
| `Program.Groups` | Program.cs:139-147 | six `Group` elements whose names are the fixed labels, in order |
| `Program.Convert` | Program.cs:131-164 | the document has exactly one preset, named `"RaceMenu - " + base`, with set `RaceMenu`, the six groups `3BA`, `3BBB`, `BHUNP 3BBB`, `CBBE bodies`, `COCO CBBE 3BBB`, `COCO UUNP 3BBB` in that order whatever the input, and the slider list `SliderList` of the morphs |
| `Program.ProcessFile` | Program.cs:97-130 | the file is skipped as existing exactly when the output exists; otherwise a missing file or `null` JSON gives the invalid-data skip, a reader exception aborts the run, and parsed data gives a created document that has all the properties `Convert` promises, groups included |
| `SliderProperties.SliderListAppend` | Program.cs:148-161 | the fold over a concatenation is the concatenation of the folds: a morph's contribution does not depend on the morphs before it |
| `SliderProperties.QualifyingAppend` | Program.cs:150-151 | the filter over a concatenation is the concatenation of the filters |
| `SliderProperties.QualifyingFilter` | Program.cs:150-151 | wherever a morph stands, the filter keeps it at its own place when it qualifies and drops it otherwise: order and duplicates are preserved |
| `SliderProperties.NonQualifyingContributesNothing` | Program.cs:150-154 | inserting a morph with no keys, a null first key or a different first key anywhere in the list leaves the slider list unchanged |
| `SliderProperties.QualifyingContributesPair` | Program.cs:155-159 | inserting a qualifying morph anywhere adds exactly the `small` then `big` sliders with its name and 100 times its first key's value, at its own position |
| `SliderProperties.SliderListShape` | Program.cs:148-161 | the slider count is twice the number of qualifying morphs, and the k-th qualifying morph gives the sliders at positions 2k (`small`) and 2k+1 (`big`), both valued at 100 times its first key's value |
| `SliderProperties.SliderPairs` | Program.cs:155-159 | the slider list has even length and splits into adjacent (`small`, `big`) pairs agreeing on name and value |
| `SliderProperties.SliderNamesAreQualifyingNames` | Program.cs:148-161 | the set of slider names equals the set of names of the qualifying morphs |
| `SliderProperties.OnlyFirstKeyConsulted` | Program.cs:150-158 | two morph lists that agree on each morph's name and first key element give the same sliders, whatever keys follow the first |
| `SliderProperties.WorkedExample` | Program.cs:148-161 | `BreastSize` keyed on `RaceMenuMorphsCBBE.esp` at 0.3, `Other` keyed elsewhere and a morph whose first key is null give exactly two `BreastSize` sliders valued 30, `small` then `big` |

## Left out

- Reading the input (`ReadJSlotFile`, Program.cs:97-105): the file existence test and JSON deserialisation happen in the runtime library; the model receives the outcome as the `ReadResult` parameter of `ProcessFile`: `NoData` for a missing file or `null` JSON text, `Malformed` when the reader throws (`File.OpenRead` fails, the JSON is invalid, or a required property is missing), `Parsed` otherwise.
- The loop over files in `Main` (Program.cs:116-170): `ProcessFile` models one iteration; that an `Aborted` iteration ends the loop, leaving later files unprocessed, is stated in the outcome's meaning but no batch is modelled.
- Directory creation and enumeration (Program.cs:109-116): filesystem side effects; the existence check on the output is the `outputExists` parameter of `ProcessFile`.
- `Path.Join` and `Path.GetFileNameWithoutExtension` (Program.cs:99, 118-119): library path helpers; the base name is an input string.
- XML serialisation and writing the output (Program.cs:115, 166-169): the model stops at the `Document` value that would be written; a write failure is not modelled.
- Console messages (Program.cs:122, 128, 169) and the `async`/`ValueTask` plumbing: they carry no logic.
- `ActorInfo` is part of the input shape but no operation reads it.
- `JSlot.JSlotObject`, `JSlot.BodyMorph`, `Program.FirstKey`: apart from key elements, JSON `null` is not representable. A null `bodyMorphs`, a null morph or a null `keys` array makes `Aggregate`, `morph.Keys` or `FirstOrDefault` throw (Program.cs:148, 150), ending the run; a null `name` is carried into both sliders and a null `key` identifier fails the filter like any other identifier. Strings are never null in the model.
- `Program.MorphSliders`, `Program.BuildSliders`: C# `decimal` holds 28-29 significant digits, throws on overflow and keeps a scale (`0.3m * 100` is `30.0m`, `0.35m * 100` is `35.00m`), and that scale decides the text written in the `value` attribute. The model multiplies exact reals, so it captures the numeric value only: not rounding of very long values, not the overflow exception, and not the trailing zeros of the written value.
- `Program.ProcessFile`: the source does not call the reader at all when the output exists; the model takes the reader's answer as a parameter and proves it is ignored in that case, not that no read happens.
