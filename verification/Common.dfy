// Shared value types.
module Common {
  datatype Option<+T> = None | Some(value: T)

  datatype Result<+T, +E> = Ok(value: T) | Err(error: E)

  // A field element is represented by its canonical residue.
  type Felt = nat

  type Byte = b: int | 0 <= b < 256

  const TWO_32 := 0x1_0000_0000

  ghost predicate Increasing(s: seq<nat>) {
    forall i, j :: 0 <= i < j < |s| ==> s[i] < s[j]
  }
}
