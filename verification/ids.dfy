/** Identifiers shared by the modules of this model. Every id is the string
    form of a document id or an identity-provider id. */
module Ids {
  type UserId = string
  type MovieId = string
}
