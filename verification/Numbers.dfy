/** The range of a 32-bit integer, numbers not in use yet, and sums of numbers. */
module Numbers {

  predicate Fits32(x: int) {
    -0x8000_0000 <= x < 0x8000_0000
  }

  /** Above all the numbers of a set. */
  ghost function Above(used: set<nat>): (n: nat)
    ensures forall k :: k in used ==> k < n
    decreases |used|
  {
    if used == {} then 0
    else
      var k :| k in used;
      var n := Above(used - {k});
      assert used == (used - {k}) + {k};
      if k < n then n else k + 1
  }

  /** The sum of the numbers in a map. */
  ghost function Total(numbers: map<nat, nat>): nat
    decreases |numbers|
  {
    if numbers == map[] then 0
    else
      var k :| k in numbers;
      SmallerMap(numbers, k);
      numbers[k] + Total(numbers - {k})
  }

  lemma {:induction false} SmallerMap(numbers: map<nat, nat>, k: nat)
    requires k in numbers
    ensures |numbers - {k}| < |numbers|
  {
    assert (numbers - {k}).Keys == numbers.Keys - {k};
    assert |numbers - {k}| == |(numbers - {k}).Keys| && |numbers| == |numbers.Keys|;
  }

  /** Any of them can be taken out first. */
  lemma {:induction false} TotalWithout(numbers: map<nat, nat>, k: nat)
    requires k in numbers
    ensures Total(numbers) == numbers[k] + Total(numbers - {k})
    decreases |numbers|
  {
    var l :| l in numbers && Total(numbers) == numbers[l] + Total(numbers - {l});
    if l != k {
      SmallerMap(numbers, l);
      SmallerMap(numbers, k);
      TotalWithout(numbers - {l}, k);
      TotalWithout(numbers - {k}, l);
      assert numbers - {l} - {k} == numbers - {k} - {l};
    }
  }

  lemma {:induction false} TotalMoves(numbers: map<nat, nat>, k: nat, n: nat)
    requires k in numbers
    ensures Total(numbers[k := n]) == Total(numbers) - numbers[k] + n
  {
    TotalWithout(numbers, k);
    TotalWithout(numbers[k := n], k);
    assert numbers[k := n] - {k} == numbers - {k};
  }
}
