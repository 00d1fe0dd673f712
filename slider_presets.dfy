/** Output side: the slider-preset document that is serialized as
    `<SliderPresets><Preset name set><Group name/>…<SetSlider name size value/>…`. */
module SliderPresets {
  /** A `<Group name="…"/>` element. */
  datatype Group = Group(name: string)

  /** A `<SetSlider name="…" size="…" value="…"/>` element; `size` is a
      free string in the document, the converter only ever writes "small" or "big". */
  datatype Slider = Slider(name: string, size: string, value: real)

  /** A `<Preset>` element; `setName` is its `set` attribute. */
  datatype Preset = Preset(name: string, setName: string, groups: seq<Group>, sliders: seq<Slider>)

  /** The `<SliderPresets>` root. */
  datatype Document = Document(presets: seq<Preset>)
}
