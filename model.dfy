/** The `Morphism` and `Entity` records of parse_entities.py. */
module Model {

  /** A named, ordered group of actions. */
  datatype Morphism = Morphism(name: string, actions: seq<string>)

  /** A page or section: its name, description, morphisms in document order,
      child entities, and the depth read off its header line. */
  datatype Entity = Entity(name: string, description: string, morphisms: seq<Morphism>, children: seq<Entity>, depth: nat)
}
