/**
 * The register object: a list of owned `Item` objects that lookups copy from, and that
 * the stock, price and description operations edit in place.
 */
module Register {
  import opened Wrappers
  import opened JavaInt
  import opened Text
  import opened Items
  import opened RegisterSpec
  import opened StableSort

  /** The numbers of stored objects; the field is final, so reading it needs no frame. */
  function ItemNumbers(s: seq<Item>): seq<string>
  {
    seq(|s|, i requires 0 <= i < |s| => s[i].itemNumber)
  }

  function ValuesOf(s: seq<Item>): seq<ItemValue>
    reads s
  {
    seq(|s|, i requires 0 <= i < |s| reads s => s[i].Value())
  }

  /** The stored objects of category `c`, in order; the field is final, so no frame. */
  function OfCategory(s: seq<Item>, c: Int32): seq<Item>
  {
    if s == [] then [] else (if s[0].category == c then [s[0]] else []) + OfCategory(s[1..], c)
  }

  lemma {:induction false} OfCategoryAppend(s: seq<Item>, x: Item, c: Int32)
    ensures OfCategory(s + [x], c) == OfCategory(s, c) + if x.category == c then [x] else []
  {
    if s != [] {
      OfCategoryAppend(s[1..], x, c);
      assert (s + [x])[1..] == s[1..] + [x];
    }
  }

  lemma OfCategoryPrefix(s: seq<Item>, i: nat, c: Int32)
    requires i < |s|
    ensures OfCategory(s[..i + 1], c) == OfCategory(s[..i], c) + if s[i].category == c then [s[i]] else []
  {
    assert s[..i + 1] == s[..i] + [s[i]];
    OfCategoryAppend(s[..i], s[i], c);
  }

  /** Filtering the objects by category and then reading their values is filtering the
      values. */
  lemma {:induction false} ValuesOfCategory(s: seq<Item>, c: Int32)
    ensures ValuesOf(OfCategory(s, c)) == AllMatching(ValuesOf(s), ByCategory(c))
  {
    if s != [] {
      var v := ValuesOf(s);
      var rest := OfCategory(s[1..], c);
      ValuesOfCategory(s[1..], c);
      assert v[1..] == ValuesOf(s[1..]);
      assert v[0].category == s[0].category;
      if s[0].category == c {
        assert AllMatching(v, ByCategory(c)) == [v[0]] + AllMatching(v[1..], ByCategory(c));
        assert ValuesOf([s[0]] + rest) == [v[0]] + ValuesOf(rest);
      } else {
        assert AllMatching(v, ByCategory(c)) == AllMatching(v[1..], ByCategory(c));
      }
    }
  }

  /** Sort keys as `Comparator.comparing` reads them from each item. */
  function PriceKeyed(s: seq<Item>): seq<Keyed<Item, real>>
    reads s
  {
    seq(|s|, i requires 0 <= i < |s| reads s => Keyed(s[i], s[i].price))
  }

  /** Colour and brand are final, so these keys are plain functions of the object. */
  function ColorOf(x: Item): string
  {
    x.color
  }

  function BrandOf(x: Item): string
  {
    x.brandName
  }

  function ColorKeyed(s: seq<Item>): seq<Keyed<Item, string>>
  {
    KeyedBy(s, ColorOf)
  }

  function BrandKeyed(s: seq<Item>): seq<Keyed<Item, string>>
  {
    KeyedBy(s, BrandOf)
  }

  /** `Double.compareTo(a, b) <= 0`, on reals. */
  function PriceLeq(a: real, b: real): bool
  {
    a <= b
  }

  lemma PriceLeqIsTotalOrder()
    ensures TotalOrder(PriceLeq)
  {
  }

  lemma LexLeqIsTotalOrder()
    ensures TotalOrder(LexLeq)
  {
    forall a: string ensures LexLeq(a, a) {
      LexLeqReflexive(a);
    }
    forall a: string, b: string | LexLeq(a, b) && LexLeq(b, a) ensures a == b {
      LexLeqAntisymmetric(a, b);
    }
    forall a: string, b: string, c: string | LexLeq(a, b) && LexLeq(b, c) ensures LexLeq(a, c) {
      LexLeqTransitive(a, b, c);
    }
    forall a: string, b: string ensures LexLeq(a, b) || LexLeq(b, a) {
      LexLeqTotal(a, b);
    }
  }

  /** Distinct numbers mean distinct objects: no object is stored twice. */
  lemma NumbersDistinguishObjects(s: seq<Item>)
    requires DistinctIgnoringCase(ItemNumbers(s))
    ensures forall i, j :: 0 <= i < j < |s| ==> s[i] != s[j]
  {
    forall i, j | 0 <= i < j < |s| ensures s[i] != s[j] {
      EqualsIgnoreCaseIsEquivalence(s[i].itemNumber, s[i].itemNumber, s[i].itemNumber);
      assert ItemNumbers(s)[i] == s[i].itemNumber && ItemNumbers(s)[j] == s[j].itemNumber;
    }
  }

  lemma OccursTwice<T>(s: seq<T>, i: nat, j: nat)
    requires i < j < |s| && s[i] == s[j]
    ensures multiset(s)[s[i]] >= 2
  {
    assert s == s[..j] + [s[j]] + s[j + 1..];
    assert s[i] in s[..j];
  }

  lemma TwoPositions<T>(s: seq<T>, x: T) returns (i: nat, j: nat)
    requires multiset(s)[x] >= 2
    ensures i < j < |s| && s[i] == x && s[j] == x
  {
    assert x in multiset(s);
    i :| 0 <= i < |s| && s[i] == x;
    var rest := s[..i] + s[i + 1..];
    assert s == s[..i] + [s[i]] + s[i + 1..];
    assert x in multiset(rest);
    var k :| 0 <= k < |rest| && rest[k] == x;
    if k < i {
      i, j := k, i;
    } else {
      j := k + 1;
    }
  }

  /** Reordering the stored objects keeps their numbers distinct. */
  lemma PermutationKeepsNumbersDistinct(a: seq<Item>, b: seq<Item>)
    requires multiset(a) == multiset(b)
    requires DistinctIgnoringCase(ItemNumbers(a))
    ensures DistinctIgnoringCase(ItemNumbers(b))
  {
    NumbersDistinguishObjects(a);
    forall i, j | 0 <= i < j < |b| ensures !EqualsIgnoreCase(ItemNumbers(b)[i], ItemNumbers(b)[j]) {
      if b[i] == b[j] {
        OccursTwice(b, i, j);
        var p, q := TwoPositions(a, b[i]);
        assert false;
      }
      assert b[i] in multiset(a) && b[j] in multiset(a);
      var p :| 0 <= p < |a| && a[p] == b[i];
      var q :| 0 <= q < |a| && a[q] == b[j];
      assert ItemNumbers(a)[p] == b[i].itemNumber && ItemNumbers(a)[q] == b[j].itemNumber;
      EqualsIgnoreCaseIsEquivalence(b[i].itemNumber, b[j].itemNumber, b[i].itemNumber);
    }
  }

  /** `ArrayList.remove(Object)`: drops the first element equal to `x`. `Item` does not
      override `equals`, so equal means the same object. */
  function RemoveObject(s: seq<Item>, x: Item): (r: seq<Item>)
    ensures x !in s ==> r == s
    ensures x in s ==> |r| == |s| - 1 && multiset(r) + multiset{x} == multiset(s)
  {
    if s == [] then []
    else if s[0] == x then
      assert s == [s[0]] + s[1..];
      s[1..]
    else
      assert s == [s[0]] + s[1..];
      [s[0]] + RemoveObject(s[1..], x)
  }

  /** The element dropped is the first occurrence of `x`; the rest keep their order. */
  lemma {:induction false} RemoveObjectFirst(s: seq<Item>, x: Item, i: nat)
    requires i < |s| && s[i] == x && x !in s[..i]
    ensures RemoveObject(s, x) == s[..i] + s[i + 1..]
  {
    if i > 0 {
      assert s[0] != x by { assert s[0] == s[..i][0]; }
      assert x !in s[1..][..i - 1] by { assert s[1..][..i - 1] == s[..i][1..]; }
      RemoveObjectFirst(s[1..], x, i - 1);
      assert s[..i] == [s[0]] + s[1..][..i - 1];
      assert s[i + 1..] == s[1..][i..];
    }
  }

  class ItemRegister {
    var items: seq<Item>

    ghost predicate Valid()
      reads this
    {
      DistinctIgnoringCase(ItemNumbers(items))
    }

    /** The stored items' field values, in list order. */
    ghost function Contents(): seq<ItemValue>
      reads this, items
    {
      ValuesOf(items)
    }

    lemma ContentsUnique()
      requires Valid()
      ensures UniqueNumbers(Contents())
      ensures forall i, j :: 0 <= i < j < |items| ==> items[i] != items[j]
    {
      assert Numbers(Contents()) == ItemNumbers(items);
      NumbersDistinguishObjects(items);
    }

    constructor ()
      ensures Valid() && Contents() == []
    {
      items := [];
    }

    /** `testForDuplicateItemNumber`. */
    method TestForDuplicateItemNumber(itemNumber: string) returns (found: bool)
      ensures found == HasItemNumber(Contents(), itemNumber)
    {
      var i := 0;
      while i < |items|
        invariant 0 <= i <= |items|
        invariant forall j :: 0 <= j < i ==> !EqualsIgnoreCase(Contents()[j].itemNumber, itemNumber)
      {
        if EqualsIgnoreCase(items[i].itemNumber, itemNumber) {
          assert Contents()[i].itemNumber == items[i].itemNumber;
          return true;
        }
        i := i + 1;
      }
      return false;
    }

    /** `newItem`: construct (and so validate) the item, then reject a duplicate number,
        then append. */
    method NewItem(itemNumber: string, description: string, price: real, brandName: string,
      weight: real, length: real, height: real, color: string, numberOfItems: Int32,
      category: Int32) returns (r: Outcome<RegisterError>)
      requires Valid()
      modifies this
      ensures Valid()
      ensures Add(old(Contents()), ItemValue(itemNumber, description, price, brandName, weight,
        length, height, color, numberOfItems, category))
        == if r.Pass? then Success(Contents()) else Failure(r.error)
      ensures r.Fail? ==> items == old(items)
      ensures r.Pass? ==> |items| == |old(items)| + 1 && items[..|old(items)|] == old(items)
      ensures r.Pass? ==> fresh(items[|old(items)|])
    {
      var v := ItemValue(itemNumber, description, price, brandName, weight, length, height,
        color, numberOfItems, category);
      var check := Validate(v);
      if check.Fail? {
        return Fail(InvalidItem(check.error));
      }
      var item := new Item(itemNumber, description, price, brandName, weight, length, height,
        color, numberOfItems, category);
      var duplicate := TestForDuplicateItemNumber(itemNumber);
      if duplicate {
        return Fail(DuplicateItemNumber);
      }
      ghost var before := Contents();
      ContentsUnique();
      items := items + [item];
      assert Contents() == before + [v];
      AddKeepsNumbersUnique(before, v);
      assert Numbers(Contents()) == ItemNumbers(items);
      r := Pass;
    }

    /** `printAllItems`, with the rendering of one item passed in; fails on an empty list. */
    method PrintAllItems(render: ItemValue -> string) returns (r: Result<string, RegisterError>)
      ensures r == PrintAll(Contents(), render)
    {
      if |items| > 0 {
        var allItemsList := "";
        var i := 0;
        while i < |items|
          invariant 0 <= i <= |items|
          invariant allItemsList == Listing(Contents()[..i], render)
        {
          assert Contents()[..i + 1][..i] == Contents()[..i];
          allItemsList := allItemsList + render(items[i].Value()) + "\n";
          i := i + 1;
        }
        assert Contents()[..i] == Contents();
        return Success(allItemsList);
      }
      return Failure(NoItemsFound);
    }

    /** The scan the lookups share: the position of the first item that `q` selects. */
    method IndexOfFirst(q: Query) returns (r: Option<nat>)
      ensures r == FirstIndex(Contents(), q)
    {
      var i := 0;
      while i < |items|
        invariant 0 <= i <= |items|
        invariant forall j :: 0 <= j < i ==> !Selects(q, Contents()[j])
      {
        if Selects(q, items[i].Value()) {
          assert Contents()[i] == items[i].Value();
          return Some(i);
        }
        i := i + 1;
      }
      return None;
    }

    /** `findItemWithItemNumber`: a fresh copy of the first item with the number. */
    method FindItemWithItemNumber(itemNumber: string) returns (r: Result<Item, RegisterError>)
      ensures r.Success? ==> fresh(r.value)
      ensures r.Success? ==> FindFirst(Contents(), ByNumber(itemNumber), ItemNotFound) == Success(r.value.Value())
      ensures r.Failure? ==> FindFirst(Contents(), ByNumber(itemNumber), ItemNotFound) == Failure(r.error)
    {
      var found := IndexOfFirst(ByNumber(itemNumber));
      if found.None? {
        return Failure(ItemNotFound);
      }
      var copy := new Item.Copy(items[found.value]);
      return Success(copy);
    }

    /** `findItemWithDescription`: a one-element list holding a copy of the first item whose
        lower-cased description contains the text. */
    method FindItemWithDescription(description: string) returns (r: Result<seq<Item>, RegisterError>)
      ensures r.Success? ==> |r.value| == 1 && fresh(r.value[0])
      ensures r.Success? ==> FirstAsList(Contents(), ByDescription(description)) == Success([r.value[0].Value()])
      ensures r.Failure? ==> FirstAsList(Contents(), ByDescription(description)) == Failure(r.error)
    {
      var found := IndexOfFirst(ByDescription(description));
      if found.None? {
        return Failure(NoItemsFound);
      }
      var deepCopy := new Item.Copy(items[found.value]);
      return Success([deepCopy]);
    }

    /** `findItemWithItemNumberAndDescription`. */
    method FindItemWithItemNumberAndDescription(itemNumber: string, description: string)
      returns (r: Result<Item, RegisterError>)
      ensures r.Success? ==> fresh(r.value)
      ensures r.Success? ==>
        FindFirst(Contents(), ByNumberAndDescription(itemNumber, description), ItemNotFound) == Success(r.value.Value())
      ensures r.Failure? ==>
        FindFirst(Contents(), ByNumberAndDescription(itemNumber, description), ItemNotFound) == Failure(r.error)
    {
      var found := IndexOfFirst(ByNumberAndDescription(itemNumber, description));
      if found.None? {
        return Failure(ItemNotFound);
      }
      var copy := new Item.Copy(items[found.value]);
      return Success(copy);
    }

    /** `findAllItemsBetweenPrice`: a one-element list holding a copy of the first item priced
        within [startPrice, endPrice]. */
    method FindAllItemsBetweenPrice(startPrice: real, endPrice: real) returns (r: Result<seq<Item>, RegisterError>)
      ensures r.Success? ==> |r.value| == 1 && fresh(r.value[0])
      ensures r.Success? ==> FirstAsList(Contents(), ByPriceRange(startPrice, endPrice)) == Success([r.value[0].Value()])
      ensures r.Failure? ==> FirstAsList(Contents(), ByPriceRange(startPrice, endPrice)) == Failure(r.error)
    {
      var found := IndexOfFirst(ByPriceRange(startPrice, endPrice));
      if found.None? {
        return Failure(NoItemsFound);
      }
      var deepCopy := new Item.Copy(items[found.value]);
      return Success([deepCopy]);
    }

    /** `findItemsByCategory`: copies of every item of the category, in list order; an empty
        list when there are none. The Java loop copies each match as it meets it; here the
        scan and the copying are two loops, which gives the same list since copying changes
        no stored item. */
    method FindItemsByCategory(category: Int32) returns (r: seq<Item>)
      ensures ValuesOf(r) == AllMatching(Contents(), ByCategory(category))
      ensures forall i :: 0 <= i < |r| ==> fresh(r[i])
    {
      var matches: seq<Item> := [];
      var i := 0;
      while i < |items|
        invariant 0 <= i <= |items|
        invariant matches == OfCategory(items[..i], category)
      {
        OfCategoryPrefix(items, i, category);
        if items[i].category == category {
          matches := matches + [items[i]];
        }
        i := i + 1;
      }
      assert items[..i] == items;
      ValuesOfCategory(items, category);
      r := CopyAll(matches);
    }

    /** A new copy of each item of `xs`, in order. */
    static method CopyAll(xs: seq<Item>) returns (r: seq<Item>)
      ensures ValuesOf(r) == ValuesOf(xs)
      ensures forall i :: 0 <= i < |r| ==> fresh(r[i])
    {
      r := [];
      var i := 0;
      while i < |xs|
        invariant 0 <= i <= |xs| && |r| == i
        invariant forall j :: 0 <= j < i ==> fresh(r[j]) && r[j].Value() == xs[j].Value()
      {
        var deepCopy := new Item.Copy(xs[i]);
        r := r + [deepCopy];
        i := i + 1;
      }
    }

    /** The loop of the increase, price, discount and description operations: every item
        whose number matches gets the edit through its setter. */
    method ApplyToMatching(itemNumber: string, e: Edit)
      requires Valid()
      modifies items
      ensures Contents() == UpdateMatching(old(Contents()), itemNumber, e)
    {
      ContentsUnique();
      var i := 0;
      while i < |items|
        invariant 0 <= i <= |items|
        invariant forall j :: 0 <= j < i ==>
          (items[j].Value() == if EqualsIgnoreCase(items[j].itemNumber, itemNumber)
            then Apply(e, old(items[j].Value())) else old(items[j].Value()))
        invariant forall j :: i <= j < |items| ==> items[j].Value() == old(items[j].Value())
      {
        if EqualsIgnoreCase(items[i].itemNumber, itemNumber) {
          EditItem(items[i], e);
        }
        i := i + 1;
      }
    }

    /** The body of each of those loops for a matching item: the new value through the
        item's setter. */
    static method EditItem(item: Item, e: Edit)
      modifies item
      ensures item.Value() == Apply(e, old(item.Value()))
    {
      match e
      case AddStock(k) =>
        var newNumberOfItems := Wrap32(item.numberOfItems + k);
        item.SetNewNumberOfItems(newNumberOfItems);
      case SetPrice(newPrice) =>
        item.SetNewPrice(newPrice);
      case Discount(discountPercent) =>
        var newPrice := item.price - item.price * discountPercent / 100.0;
        item.SetNewPrice(newPrice);
      case SetDescription(newDescription) =>
        item.SetNewDescription(newDescription);
    }

    /** `increaseAmountOfOneItem`: adds to the matching count (with `int` wrap-around);
        nothing happens when the number is not stored. */
    method IncreaseAmountOfOneItem(itemNumber: string, addNumberOfItems: Int32)
      requires Valid()
      modifies items
      ensures Valid()
      ensures Contents() == UpdateMatching(old(Contents()), itemNumber, AddStock(addNumberOfItems))
    {
      ApplyToMatching(itemNumber, AddStock(addNumberOfItems));
    }

    /** `changePriceOnAnItem`: overwrites the matching price, unchecked. */
    method ChangePriceOnAnItem(itemNumber: string, newPrice: real)
      requires Valid()
      modifies items
      ensures Valid()
      ensures Contents() == UpdateMatching(old(Contents()), itemNumber, SetPrice(newPrice))
    {
      ApplyToMatching(itemNumber, SetPrice(newPrice));
    }

    /** `giveDiscountOnAnItem`: price becomes `price - price * percent / 100`, unchecked. */
    method GiveDiscountOnAnItem(itemNumber: string, discountPercent: real)
      requires Valid()
      modifies items
      ensures Valid()
      ensures Contents() == UpdateMatching(old(Contents()), itemNumber, Discount(discountPercent))
    {
      ApplyToMatching(itemNumber, Discount(discountPercent));
    }

    /** `changeDescriptionOnAnItem`: overwrites the matching description. */
    method ChangeDescriptionOnAnItem(itemNumber: string, newDescription: string)
      requires Valid()
      modifies items
      ensures Valid()
      ensures Contents() == UpdateMatching(old(Contents()), itemNumber, SetDescription(newDescription))
    {
      ApplyToMatching(itemNumber, SetDescription(newDescription));
    }

    /** `decreaseAmountOfOneItem`: subtracts from the matching count, failing and leaving it
        as it was when the result would be negative. The Java loop runs on past the match;
        numbers are unique, so that remainder of the scan changes nothing and is not repeated
        here. */
    method DecreaseAmountOfOneItem(itemNumber: string, subtractNumberOfItems: Int32)
      returns (r: Outcome<RegisterError>)
      requires Valid()
      modifies items
      ensures Valid()
      ensures Decrease(old(Contents()), itemNumber, subtractNumberOfItems)
        == if r.Pass? then Success(Contents()) else Failure(r.error)
      ensures r.Fail? ==> Contents() == old(Contents())
    {
      ContentsUnique();
      var found := IndexOfFirst(ByNumber(itemNumber));
      if found.Some? {
        var i := found.value;
        ghost var s := Contents();
        assert items[i].numberOfItems == s[i].numberOfItems;
        var newNumberOfItems := Wrap32(items[i].numberOfItems - subtractNumberOfItems);
        DecreaseAtMatch(s, itemNumber, subtractNumberOfItems, i, newNumberOfItems);
        if newNumberOfItems < 0 {
          return Fail(StockWouldGoNegative);
        }
        SetNumberOfItemsAt(i, newNumberOfItems);
      }
      r := Pass;
    }

    /** `increaseAmountOfOneItem` with the range check it lacks: adds to the matching
        count, failing and leaving it as it was when the sum would leave `0..MaxInt32`. */
    method IncreaseAmountChecked(itemNumber: string, addNumberOfItems: Int32)
      returns (r: Outcome<RegisterError>)
      requires Valid()
      modifies items
      ensures Valid()
      ensures Increase(old(Contents()), itemNumber, addNumberOfItems)
        == if r.Pass? then Success(Contents()) else Failure(r.error)
      ensures r.Fail? ==> Contents() == old(Contents())
    {
      ContentsUnique();
      var found := IndexOfFirst(ByNumber(itemNumber));
      if found.Some? {
        var i := found.value;
        ghost var s := Contents();
        assert items[i].numberOfItems == s[i].numberOfItems;
        IncreaseAtMatch(s, itemNumber, addNumberOfItems, i);
        var newNumberOfItems := items[i].numberOfItems + addNumberOfItems;
        if newNumberOfItems < 0 {
          return Fail(StockWouldGoNegative);
        } else if newNumberOfItems > MaxInt32 {
          return Fail(StockWouldOverflow);
        }
        SetNumberOfItemsAt(i, newNumberOfItems);
      }
      r := Pass;
    }

    /** One stock count changes; since the stored items are distinct objects, no other
        record sees the change. */
    method SetNumberOfItemsAt(i: nat, newNumberOfItems: Int32)
      requires Valid() && i < |items|
      modifies items
      ensures Contents() == old(Contents())[i := old(Contents())[i].(numberOfItems := newNumberOfItems)]
    {
      ContentsUnique();
      items[i].SetNewNumberOfItems(newNumberOfItems);
    }

    /** `getNumberOfItems`: how many records are stored. */
    function GetNumberOfItems(): (n: nat)
      reads this
      ensures n == |items|
    {
      |items|
    }

    /** `getNumberOfIndividualItems`: the sum of all stock counts, accumulated in an `int`. */
    method GetNumberOfIndividualItems() returns (sum: Int32)
      ensures sum == Wrap32(TotalUnits(Contents()))
    {
      sum := 0;
      var i := 0;
      while i < |items|
        invariant 0 <= i <= |items|
        invariant sum == Wrap32(TotalUnits(Contents()[..i]))
      {
        assert Contents()[..i + 1][..i] == Contents()[..i];
        WrapAdd(TotalUnits(Contents()[..i]), items[i].numberOfItems);
        sum := Wrap32(sum + items[i].numberOfItems);
        i := i + 1;
      }
      assert Contents()[..i] == Contents();
    }

    /** `sortItemsByPrice`: stably reorders the stored list by price and returns the list
        itself, not copies. */
    method SortItemsByPrice() returns (r: seq<Item>)
      requires Valid()
      modifies this
      ensures Valid() && r == items
      ensures PriceKeyed(items) == Sort(old(PriceKeyed(items)), PriceLeq)
      ensures multiset(items) == multiset(old(items))
      ensures forall i, j :: 0 <= i < j < |items| ==> items[i].price <= items[j].price
    {
      var keyed := PriceKeyed(items);
      var sorted := Sort(keyed, PriceLeq);
      PriceLeqIsTotalOrder();
      SortPermutes(keyed, PriceLeq);
      SortKeepsElements(keyed, PriceLeq);
      SortSorted(keyed, PriceLeq);
      assert Vals(keyed) == items;
      ghost var old_items := items;
      items := Vals(sorted);
      forall i | 0 <= i < |sorted| ensures sorted[i].key == sorted[i].val.price {
        assert sorted[i] in multiset(keyed);
      }
      assert PriceKeyed(items) == sorted;
      PermutationKeepsNumbersDistinct(old_items, items);
      r := items;
    }

    /** `sortItemsByColor`: stably reorders the stored list by colour (`String.compareTo`). */
    method SortItemsByColor() returns (r: seq<Item>)
      requires Valid()
      modifies this
      ensures Valid() && r == items
      ensures ColorKeyed(items) == Sort(ColorKeyed(old(items)), LexLeq)
      ensures multiset(items) == multiset(old(items))
      ensures forall i, j :: 0 <= i < j < |items| ==> LexLeq(items[i].color, items[j].color)
    {
      var sorted := Sort(ColorKeyed(items), LexLeq);
      LexLeqIsTotalOrder();
      SortByKey(items, ColorOf, LexLeq);
      ghost var old_items := items;
      items := Vals(sorted);
      assert ColorKeyed(items) == sorted;
      forall i | 0 <= i < |items| ensures items[i].color == sorted[i].key {
        assert ColorKeyed(items)[i] == sorted[i];
        assert KeyedBy(items, ColorOf)[i].key == ColorOf(items[i]);
      }
      PermutationKeepsNumbersDistinct(old_items, items);
      r := items;
    }

    /** `sortItemsByBrandName`: stably reorders the stored list by brand name. */
    method SortItemsByBrandName() returns (r: seq<Item>)
      requires Valid()
      modifies this
      ensures Valid() && r == items
      ensures BrandKeyed(items) == Sort(BrandKeyed(old(items)), LexLeq)
      ensures multiset(items) == multiset(old(items))
      ensures forall i, j :: 0 <= i < j < |items| ==> LexLeq(items[i].brandName, items[j].brandName)
    {
      var sorted := Sort(BrandKeyed(items), LexLeq);
      LexLeqIsTotalOrder();
      SortByKey(items, BrandOf, LexLeq);
      ghost var old_items := items;
      items := Vals(sorted);
      assert BrandKeyed(items) == sorted;
      forall i | 0 <= i < |items| ensures items[i].brandName == sorted[i].key {
        assert BrandKeyed(items)[i] == sorted[i];
        assert KeyedBy(items, BrandOf)[i].key == BrandOf(items[i]);
      }
      PermutationKeepsNumbersDistinct(old_items, items);
      r := items;
    }

    /** `deleteAnItem` as written: for a matching item it removes a fresh copy, which is no
        element of the list, and afterwards it always throws. */
    method DeleteAnItem(itemNumber: string) returns (r: Outcome<RegisterError>)
      requires Valid()
      modifies this
      ensures Valid()
      ensures r == Fail(ItemNotFound) && items == old(items)
    {
      var i := 0;
      while i < |items|
        invariant 0 <= i <= |items| && items == old(items)
      {
        if EqualsIgnoreCase(items[i].itemNumber, itemNumber) {
          var deepCopy := new Item.Copy(items[i]);
          items := RemoveObject(items, deepCopy);
        }
        i := i + 1;
      }
      return Fail(ItemNotFound);
    }

    /** Deletion as `deleteAnItem` documents it: removes the stored item with the number,
        or fails when there is none. */
    method RemoveAnItem(itemNumber: string) returns (r: Outcome<RegisterError>)
      requires Valid()
      modifies this
      ensures Valid()
      ensures RemoveFirst(old(Contents()), itemNumber) == if r.Pass? then Success(Contents()) else Failure(r.error)
    {
      var found := IndexOfFirst(ByNumber(itemNumber));
      if found.None? {
        return Fail(ItemNotFound);
      }
      var i := found.value;
      ghost var before := Contents();
      ContentsUnique();
      items := items[..i] + items[i + 1..];
      assert Contents() == before[..i] + before[i + 1..];
      RemovingKeepsUnique(before, i);
      assert Numbers(Contents()) == ItemNumbers(items);
      r := Pass;
    }

    /** `addDefaultItems`: registers the five sample items in order; the first one that
        `newItem` rejects ends the call with its error. */
    method AddDefaultItems() returns (r: Outcome<RegisterError>)
      requires Valid()
      modifies this
      ensures Valid()
      ensures (Contents(), r) == AddAll(old(Contents()), DefaultItems())
    {
      ghost var s := Contents();
      assert DefaultItems()[0..] == DefaultItems();
      r := AddSampleItem(s, 0);
      if r.Fail? {
        return;
      }
      r := AddSampleItem(s, 1);
      if r.Fail? {
        return;
      }
      r := AddSampleItem(s, 2);
      if r.Fail? {
        return;
      }
      r := AddSampleItem(s, 3);
      if r.Fail? {
        return;
      }
      r := AddSampleItem(s, 4);
      if r.Fail? {
        return;
      }
      assert DefaultItems()[5..] == [];
    }

    /** One `newItem` call of `addDefaultItems`: registers sample item `k`, given that the
        earlier ones are in. */
    method AddSampleItem(ghost s: seq<ItemValue>, k: nat) returns (r: Outcome<RegisterError>)
      requires Valid() && k < |DefaultItems()|
      requires AddAll(s, DefaultItems()) == AddAll(Contents(), DefaultItems()[k..])
      modifies this
      ensures Valid()
      ensures r.Fail? ==> AddAll(s, DefaultItems()) == (Contents(), r)
      ensures r.Pass? ==> AddAll(s, DefaultItems()) == AddAll(Contents(), DefaultItems()[k + 1..])
    {
      var v := DefaultItems()[k];
      AddDefaultStep(s, Contents(), k);
      r := NewItem(v.itemNumber, v.description, v.price, v.brandName, v.weight, v.length,
        v.height, v.color, v.numberOfItems, v.category);
    }
  }

  /** A caller that edits the item a lookup returned: the lookup hands out a copy, so the
      register's contents, and a second lookup, are as before. */
  method EditReturnedCopy(register: ItemRegister, itemNumber: string, newPrice: real)
    returns (before: Result<ItemValue, RegisterError>, after: Result<ItemValue, RegisterError>)
    ensures before == after
    ensures before == FindFirst(register.Contents(), ByNumber(itemNumber), ItemNotFound)
  {
    var found := register.FindItemWithItemNumber(itemNumber);
    before := if found.Success? then Success(found.value.Value()) else Failure(found.error);
    if found.Success? {
      found.value.SetNewPrice(newPrice);
    }
    var again := register.FindItemWithItemNumber(itemNumber);
    after := if again.Success? then Success(again.value.Value()) else Failure(again.error);
  }
}
