/** Identifiers and failure-carrying wrappers shared by the ledger modules. */
module Common {

  /** A community (Discord guild) snowflake. */
  type GuildId = nat

  /** A user snowflake. */
  type UserId = nat

  datatype Option<+T> = None | Some(value: T)

  datatype Result<+T, +E> = Ok(value: T) | Err(error: E)

  function Min(a: int, b: int): int { if a <= b then a else b }

  function Max(a: int, b: int): int { if a >= b then a else b }
}
