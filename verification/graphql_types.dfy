/** The few schema types the modelled components read, and the shape of a
    mutation's answer as the components inspect it. */
module GraphqlTypes {

  /** The role enumeration of the schema (`USER`, `ADMIN`). */
  datatype UserRole = User | Admin

  /** How a topic's image is interpreted. The components import this
      enumeration although the schema declarations do not define it; they
      only ever name the device-icon kind, and show every other kind as a
      plain image URL. */
  datatype ImageType = DevIcon | OtherImageType

  /** The part of a mutation's answer a component looks at: whether it
      carries an error, and the text it shows for it. The topic editor and
      the topics page read the error's own message; the resource toggles
      read a `message` field of their helper's result, whose shape is not
      part of this model and is taken to be that error text. */
  datatype MutationResult = MutationOk | MutationError(message: string)
}
