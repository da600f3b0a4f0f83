// System.Jagged: allocation of a jagged array, an array of row arrays.
module Jagged {
  import opened Exceptions
  import opened CSharp

  /**
   * `Jagged.Array<T>(first, second)`: an outer array of `first` rows, each a
   * new array of `second` default values. `default(T)` is passed as `init`.
   * `new T[first][]` throws OverflowException for a negative `first`, and
   * `new T[second]` does so for a negative `second` as soon as a row is
   * allocated.
   */
  method Array<T>(first: Int32, second: Int32, init: T) returns (r: Result<array<array<T>>>)
    ensures r.Err? <==> first < 0 || (first > 0 && second < 0)
    ensures r.Err? ==> r.error == Overflow
    ensures r.Ok? ==> fresh(r.value) && r.value.Length == first
    ensures r.Ok? ==> forall i :: 0 <= i < first ==>
      fresh(r.value[i]) && r.value[i].Length == second &&
      forall j :: 0 <= j < second ==> r.value[i][j] == init
    ensures r.Ok? ==> forall i, k :: 0 <= i < k < first ==> r.value[i] != r.value[k]
  {
    if first < 0 {
      return Err(Overflow);
    }
    if first > 0 && second < 0 {
      return Err(Overflow);
    }
    var placeholder := new T[0];
    var rows := new array<T>[first](_ => placeholder);
    var index := 0;
    while index < first
      invariant 0 <= index <= first
      invariant forall i :: 0 <= i < index ==>
        fresh(rows[i]) && rows[i].Length == second &&
        forall j :: 0 <= j < second ==> rows[i][j] == init
      invariant forall i, k :: 0 <= i < k < index ==> rows[i] != rows[k]
    {
      var row := new T[second](_ => init);
      rows[index] := row;
      index := index + 1;
    }
    return Ok(rows);
  }
}
