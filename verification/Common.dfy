/** Types shared by the modules of this project. */
module Common {
  datatype Option<+T> = None | Some(value: T)

  /** One octet. Masks and shifts of the source appear as `/`, `%`, `*` and `+` on octets. */
  type byte = b: int | 0 <= b < 256

  /** Concatenation of a sequence of sequences. */
  function Flatten<T>(parts: seq<seq<T>>): (s: seq<T>)
  {
    if parts == [] then [] else parts[0] + Flatten(parts[1..])
  }

  /** C's integer division by two, which rounds towards zero. */
  function Half(n: int): (h: int)
    ensures if n >= 0 then 2 * h <= n <= 2 * h + 1 else 2 * h - 1 <= n <= 2 * h
  {
    if n >= 0 then n / 2 else -((-n) / 2)
  }
}
