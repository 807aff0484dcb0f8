/** The structured-output schema objects handed to the AI client (`StringSchema` and `ObjectSchema`). */
module Schema {

  datatype Schema =
    | StringSchema(name: string, description: string)
    | ObjectSchema(name: string, description: string, properties: seq<Schema>, requiredFields: seq<string>)

  /** The names of a list of schema properties, in order. */
  function Names(props: seq<Schema>): (r: seq<string>)
    ensures |r| == |props|
    ensures forall i :: 0 <= i < |props| ==> r[i] == props[i].name
  {
    seq(|props|, i requires 0 <= i < |props| => props[i].name)
  }

  /** A property list made of string fields only. */
  predicate AllStrings(props: seq<Schema>) {
    forall i :: 0 <= i < |props| ==> props[i].StringSchema?
  }
}
