/** Types shared by the pipeline's stages. */
module Common {

  datatype Option<+T> = None | Some(value: T)

  /** The metadata of a stored document: string fields keyed by name, as
      the vector store hands them back. */
  type Meta = map<string, string>
}
