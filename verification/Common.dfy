/** Vocabulary shared by every component of the kernel model. */
module Common {

  /** A `u8`. */
  type Byte = b: int | 0 <= b < 256

  datatype Option<+T> = None | Some(value: T)

  const NEWLINE: Byte := 0x0A
  const BACKSPACE: Byte := 0x08
  const SPACE: Byte := 0x20

  /** The bytes the kernel calls printable ASCII (0x20..=0x7e). */
  predicate Printable(b: Byte) {
    0x20 <= b <= 0x7E
  }

  ghost predicate AllPrintable(s: seq<Byte>) {
    forall i :: 0 <= i < |s| ==> Printable(s[i])
  }

  /** The last `n` elements of `s`, or all of `s` when it is shorter. */
  function LastN<T>(n: nat, s: seq<T>): seq<T> {
    if |s| <= n then s else s[|s| - n..]
  }

  /** The last element of a nonempty sequence. */
  function Last<T>(s: seq<T>): T
    requires s != []
  {
    s[|s| - 1]
  }

  /** Everything but the last element of a nonempty sequence. */
  function Front<T>(s: seq<T>): seq<T>
    requires s != []
  {
    s[..|s| - 1]
  }
}
