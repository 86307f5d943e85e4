/** Small things every component uses. */
module Basics {

  datatype Option<+T> = None | Some(value: T)

  datatype Result<+T> = Ok(value: T) | Err(error: Error)

  datatype Error = Invalid(message: string) | Conflict(message: string) | NotFound(message: string) | Eof

  function GetOr<T>(o: Option<T>, default: T): T { if o.Some? then o.value else default }

  function Lookup<K, V>(m: map<K, V>, k: K): Option<V> { if k in m then Some(m[k]) else None }

  function Min(a: nat, b: nat): nat { if a < b then a else b }

  function Max(a: nat, b: nat): nat { if a < b then b else a }

  /** Saturating subtraction. */
  function Sub(a: nat, b: nat): nat { if a < b then 0 else a - b }

  /** One past the largest 32-bit number. */
  const U32: nat := 0x1_0000_0000

  /** One past the largest 64-bit number. */
  const U64: nat := 0x1_0000_0000_0000_0000
}
