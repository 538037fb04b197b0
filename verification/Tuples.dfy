/** Objects, relations and relationships. */
module Tuples {
  import opened Common
  import opened Caveats

  /** The subject id that stands for every subject of a type. */
  const PUBLIC_WILDCARD := "*"

  /** The relation of a subject that is the object itself. */
  const ELLIPSIS := "..."

  datatype RelationReference = RelationReference(objectType: string, relation: string)

  datatype ObjectAndRelation = ONR(objectType: string, objectID: string, relation: string)
  {
    function Reference(): RelationReference {
      RelationReference(objectType, relation)
    }
  }

  datatype Relationship = Relationship(resource: ObjectAndRelation, subject: ObjectAndRelation, caveat: Option<Caveat>)
}
