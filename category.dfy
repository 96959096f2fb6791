/** The closed table of product categories and its lookup by number. */
module Categories {
  import opened Wrappers

  datatype Category = LaminateFlooring | Windows | Doors | Lumber

  /** The number each constant is declared with. */
  function CategoryNumber(c: Category): (r: int)
    ensures 1 <= r <= 4
  {
    match c
    case LaminateFlooring => 1
    case Windows => 2
    case Doors => 3
    case Lumber => 4
  }

  /** The constants in declaration order, as `Category.values()` lists them. */
  const Values: seq<Category> := [LaminateFlooring, Windows, Doors, Lumber]

  /** The first constant of `cs` whose number is `n`, scanning front to back. */
  function FirstWithNumber(cs: seq<Category>, n: int): (r: Option<Category>)
    ensures r.Some? ==> r.value in cs && CategoryNumber(r.value) == n
    ensures r.None? ==> forall c :: c in cs ==> CategoryNumber(c) != n
  {
    if cs == [] then None
    else if CategoryNumber(cs[0]) == n then Some(cs[0])
    else FirstWithNumber(cs[1..], n)
  }

  /** `Category.getCategory`: the constant numbered `n`; None where the source throws. */
  function GetCategory(n: int): (r: Option<Category>)
    ensures r.Some? <==> 1 <= n <= 4
    ensures r.Some? ==> CategoryNumber(r.value) == n
  {
    assert 1 <= n <= 4 ==> Values[n - 1] in Values && CategoryNumber(Values[n - 1]) == n;
    FirstWithNumber(Values, n)
  }

  /** The table: 1, 2, 3 and 4 name the four constants in declaration order. */
  lemma CategoryTable()
    ensures GetCategory(1) == Some(LaminateFlooring)
    ensures GetCategory(2) == Some(Windows)
    ensures GetCategory(3) == Some(Doors)
    ensures GetCategory(4) == Some(Lumber)
  {
  }

  /** Looking a constant up by its own number gives the constant back. */
  lemma GetCategoryOfNumber(c: Category)
    ensures GetCategory(CategoryNumber(c)) == Some(c)
  {
    var r := GetCategory(CategoryNumber(c));
    assert r.Some?;
    CategoryNumbersDistinct(c, r.value);
  }

  /** No two constants share a number. */
  lemma CategoryNumbersDistinct(c: Category, d: Category)
    ensures CategoryNumber(c) == CategoryNumber(d) ==> c == d
  {
  }
}
