/** The in-memory shape of a loaded `.entity` file. */
module EntityModel {

  /** One `key: value;` line of a component, kept as the loader's string pair. */
  datatype Field = Field(key: string, value: string)

  /** A component's key in the template's map (EntityIndividualData): its
      class path and the field lines read before its first subsection. */
  datatype Descriptor = Descriptor(classpath: string, fields: seq<Field>)

  /** A named subsection (EntitySectionData) and the comma-separated tokens
      of its data lines, concatenated across physical lines. */
  datatype Section = Section(name: string, values: seq<string>)

  /** One entry of the template's component map, in the order it was put. */
  datatype Component = Component(descriptor: Descriptor, sections: seq<Section>)

  /** An EntityTemplate: the entity name and its component entries. */
  datatype Template = Template(name: string, components: seq<Component>)

  /** The name a template gets when its file names none. */
  const UNNAMED: string := "unnamed"
}
