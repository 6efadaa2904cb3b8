/** Identifiers shared by every part of the model. */
module Ids {

  datatype Option<+T> = None | Some(value: T)

  type Byte = n: int | 0 <= n < 0x100

  /** A document-wide identifier: the client that made an insertion and its logical clock. */
  datatype ID = ID(client: nat, clock: nat)

  /**
    One insertion.  A block of length n stands for n of these, with consecutive clocks.
    `origin` and `rightOrigin` are the neighbours the author saw when inserting.
   */
  datatype Unit = Unit(id: ID, origin: Option<ID>, rightOrigin: Option<ID>)
}
