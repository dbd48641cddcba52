/** What several modules share. */
module Common {
  datatype Option<+T> = None | Some(value: T)

  const NOFID := 0xFFFF_FFFF  // types.go
  const M32 := 0x1_0000_0000  // the range of a uint32

  lemma CardMono<T>(a: set<T>, b: set<T>)
    requires a <= b
    ensures |a| <= |b|
  {
    assert b == a + (b - a);
  }
}
