/** Input side: the in-memory shape of a `.jslot` file once deserialized.
    C# `decimal` values are exact reals here. */
module JSlot {
  import opened Wrappers

  /** Actor appearance data; part of the file's shape, never read by the converter. */
  datatype ActorInfo = ActorInfo(hairColor: real, headTexture: string, weight: real)

  /** One (identifier, value) pair of a body morph, e.g. ("RaceMenuMorphsCBBE.esp", 0.3). */
  datatype BodyMorphKey = BodyMorphKey(key: string, value: real)

  /** A named body morph with its keys, in file order. An element of `keys`
      may be a JSON `null`, which the deserializer accepts; it is `None` here. */
  datatype BodyMorph = BodyMorph(name: string, keys: seq<Option<BodyMorphKey>>)

  /** A whole jslot record: the optional actor block and the morphs in file order. */
  datatype JSlotObject = JSlotObject(actorInfo: Option<ActorInfo>, bodyMorphs: seq<BodyMorph>)
}
