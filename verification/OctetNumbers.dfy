// Octets as indices, and indices as octets.
module OctetNumbers {
  lemma NumberRoundTrip(i: nat)
    requires i < 256
    ensures (i as bv8) as int == i
  {
  }

  lemma OctetRoundTrip(x: bv8)
    ensures 0 <= x as int < 256 && (x as int) as bv8 == x
  {
  }
}
