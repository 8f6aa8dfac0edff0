/**
  The shared record types of the application: a person who may be selected,
  a venue, and the `Maybe<T>` (a value or `null`) used for absent results.
 */
module Interfaces {

  /** `Maybe<T> = T | null`. */
  datatype Option<+T> = None | Some(value: T)

  /** A person: the drinks they like and the foods they will not eat. */
  datatype User = User(name: string, wontEat: seq<string>, drinks: seq<string>)

  /** A venue: the food it serves and the drinks it pours. */
  datatype Venue = Venue(name: string, food: seq<string>, drinks: seq<string>)
}
