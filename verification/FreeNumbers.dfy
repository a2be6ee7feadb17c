/** The first number from a start on that is not taken. */
module FreeNumbers {

  function AtLeast(used: set<int>, n: int): set<int> {
    set k | k in used && k >= n
  }

  function FirstFree(used: set<int>, n: int): (m: int)
    ensures m >= n && m !in used
    ensures forall k :: n <= k < m ==> k in used
    decreases AtLeast(used, n)
  {
    if n in used then
      assert n in AtLeast(used, n) && n !in AtLeast(used, n + 1);
      FirstFree(used, n + 1)
    else n
  }
}
