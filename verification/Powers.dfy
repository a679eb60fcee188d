/** Powers of the byte base, shared by the little- and big-endian number formats. */
module Powers {
  function Pow256(k: nat): (p: nat)
    ensures p > 0
  {
    if k == 0 then 1 else 256 * Pow256(k - 1)
  }
}
