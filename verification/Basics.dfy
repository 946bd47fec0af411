/** Shared value types. */
module Basics {

  datatype Option<+T> = None | Some(value: T) {
    function GetOr(default: T): T {
      if Some? then value else default
    }
  }

  /** A point on the single clock every transaction reads, in microseconds. */
  type Time = int

  const MINUTE: Time := 60_000_000
  const SECOND: Time := 1_000_000

  function Abs(x: int): nat {
    if x < 0 then -x else x
  }

  /** What str.strip takes for white space. */
  predicate Space(c: char) {
    var n := c as int;
    9 <= n <= 13 || 28 <= n <= 32 || n == 0x85 || n == 0xA0 || n == 0x1680 || 0x2000 <= n <= 0x200A
    || n == 0x2028 || n == 0x2029 || n == 0x202F || n == 0x205F || n == 0x3000
  }

  /** Nothing but white space: what an operator name or a reason must not be. */
  predicate Blank(s: string) {
    forall c | c in s :: Space(c)
  }
}
