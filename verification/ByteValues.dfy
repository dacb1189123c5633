/** The byte that stands for a small integer. */
module ByteValues {
  function ByteFrom(n: nat): (b: bv8)
    requires n < 0x100
    ensures b as nat == n
  {
    if n == 0 then 0 else ByteFrom(n - 1) + 1
  }

  lemma SameValue(a: bv8, b: bv8)
    requires a as nat == b as nat
    ensures a == b
  {
    assert (a as nat) as bv8 == a;
  }
}
