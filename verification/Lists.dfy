/** What the models share: optional values, and lists without duplicates, which the C code links
    through its elements. */
module Lists {

  datatype Option<+T> = None | Some(value: T)

  function Min(a: int, b: int): int { if a < b then a else b }

  function Max(a: nat, b: nat): nat { if a < b then b else a }

  ghost predicate Distinct<T>(list: seq<T>)
  {
    forall i, j :: 0 <= i < j < |list| ==> list[i] != list[j]
  }

  /** The list without the first occurrence of x. */
  function Without<T(==)>(list: seq<T>, x: T): seq<T>
  {
    if list == [] then []
    else if list[0] == x then list[1..]
    else [list[0]] + Without(list[1..], x)
  }

  lemma {:induction false} WithoutKeeps<T>(list: seq<T>, x: T)
    requires Distinct(list)
    ensures Distinct(Without(list, x))
    ensures forall y :: y in Without(list, x) <==> y in list && y != x
  {
    if list != [] {
      WithoutKeeps(list[1..], x);
      assert forall y :: y in list <==> y == list[0] || y in list[1..];
      if list[0] != x {
        assert list[0] !in list[1..];
        assert list[0] !in Without(list[1..], x);
      }
    }
  }

  lemma {:induction false} WithoutFrom<T>(list: seq<T>, x: T, i: nat)
    requires i <= |list| && x !in list[..i]
    ensures Without(list, x) == list[..i] + Without(list[i..], x)
    decreases i
  {
    if i == 0 {
      assert list[0..] == list;
    } else {
      assert list[..i][0] == list[0] && list[1..][..i - 1] == list[..i][1..] && list[1..][i - 1..] == list[i..];
      WithoutFrom(list[1..], x, i - 1);
      assert list[..i] == [list[0]] + list[1..][..i - 1];
    }
  }
}
