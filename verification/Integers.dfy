/** Arithmetic that more than one part needs. */
module Integers {
  function Abs(i: int): int { if i < 0 then -i else i }
}
