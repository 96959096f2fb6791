/** One stocked product line: its field values, the constructor's checks and the mutable record. */
module Items {
  import opened Wrappers
  import opened JavaInt
  import opened Text

  /** A snapshot of every field of an item, in the constructor's parameter order. */
  datatype ItemValue = ItemValue(
    itemNumber: string,
    description: string,
    price: real,
    brandName: string,
    weight: real,
    length: real,
    height: real,
    color: string,
    numberOfItems: Int32,
    category: Int32)

  /** The constructor's rejections, one per check. */
  datatype ItemError =
    | BlankItemNumber
    | BlankBrandName
    | NegativePrice
    | NonPositiveWeight
    | NonPositiveLength
    | NonPositiveHeight
    | NegativeNumberOfItems

  /** The constructor's checks, in the order it makes them: the first one that fails decides. */
  function Validate(v: ItemValue): (r: Outcome<ItemError>)
    ensures r.Pass? <==> WellFormed(v)
  {
    if IsBlank(v.itemNumber) then Fail(BlankItemNumber)
    else if IsBlank(v.brandName) then Fail(BlankBrandName)
    else if v.price < 0.0 then Fail(NegativePrice)
    else if v.weight <= 0.0 then Fail(NonPositiveWeight)
    else if v.length <= 0.0 then Fail(NonPositiveLength)
    else if v.height <= 0.0 then Fail(NonPositiveHeight)
    else if v.numberOfItems < 0 then Fail(NegativeNumberOfItems)
    else Pass
  }

  /** The field constraints an accepted item satisfies. */
  predicate WellFormed(v: ItemValue)
  {
    && !IsBlank(v.itemNumber) && !IsBlank(v.brandName)
    && v.price >= 0.0 && v.weight > 0.0 && v.length > 0.0 && v.height > 0.0
    && v.numberOfItems >= 0
  }

  /** The constructor accepts exactly the well-formed values, and otherwise reports the
      first violated check: each error arises only when every earlier check passed. */
  lemma ValidateReportsFirstViolation(v: ItemValue)
    ensures Validate(v) == Pass <==> WellFormed(v)
    ensures Validate(v) == Fail(BlankItemNumber) <==> IsBlank(v.itemNumber)
    ensures Validate(v) == Fail(BlankBrandName) <==> !IsBlank(v.itemNumber) && IsBlank(v.brandName)
    ensures Validate(v) == Fail(NegativePrice) <==>
      !IsBlank(v.itemNumber) && !IsBlank(v.brandName) && v.price < 0.0
    ensures Validate(v) == Fail(NonPositiveWeight) <==>
      !IsBlank(v.itemNumber) && !IsBlank(v.brandName) && v.price >= 0.0 && v.weight <= 0.0
    ensures Validate(v) == Fail(NonPositiveLength) <==>
      !IsBlank(v.itemNumber) && !IsBlank(v.brandName) && v.price >= 0.0 && v.weight > 0.0
      && v.length <= 0.0
    ensures Validate(v) == Fail(NonPositiveHeight) <==>
      !IsBlank(v.itemNumber) && !IsBlank(v.brandName) && v.price >= 0.0 && v.weight > 0.0
      && v.length > 0.0 && v.height <= 0.0
    ensures Validate(v) == Fail(NegativeNumberOfItems) <==>
      !IsBlank(v.itemNumber) && !IsBlank(v.brandName) && v.price >= 0.0 && v.weight > 0.0
      && v.length > 0.0 && v.height > 0.0 && v.numberOfItems < 0
  {
  }

  /** Zero price and zero stock are accepted; zero weight, length or height is not. */
  lemma ValidateBoundaries(v: ItemValue)
    requires WellFormed(v)
    ensures Validate(v.(price := 0.0)) == Pass
    ensures Validate(v.(numberOfItems := 0)) == Pass
    ensures Validate(v.(weight := 0.0)) == Fail(NonPositiveWeight)
    ensures Validate(v.(length := 0.0)) == Fail(NonPositiveLength)
    ensures Validate(v.(height := 0.0)) == Fail(NonPositiveHeight)
  {
  }

  /** Category, description and colour are not inspected: any value is stored. */
  lemma ValidateIgnoresUncheckedFields(v: ItemValue, category: Int32, description: string, color: string)
    ensures Validate(v.(category := category, description := description, color := color)) == Validate(v)
  {
  }

  /**
   * A stored product record. The source's `final` fields are `const` here, so they
   * cannot change once constructed; price, stock count and description are mutable.
   * The getters of the source are reads of these fields.
   */
  class Item {
    const itemNumber: string
    const brandName: string
    const color: string
    const category: Int32
    const weight: real
    const length: real
    const height: real
    var description: string
    var numberOfItems: Int32
    var price: real

    /** All fields of this item as a value. */
    function Value(): ItemValue
      reads this
    {
      ItemValue(itemNumber, description, price, brandName, weight, length, height,
        color, numberOfItems, category)
    }

    /** The validating constructor, for arguments its checks accept (see `Validate`). */
    constructor (itemNumber: string, description: string, price: real, brandName: string,
      weight: real, length: real, height: real, color: string, numberOfItems: Int32,
      category: Int32)
      requires Validate(ItemValue(itemNumber, description, price, brandName, weight, length,
        height, color, numberOfItems, category)) == Pass
      ensures Value() == ItemValue(itemNumber, description, price, brandName, weight, length,
        height, color, numberOfItems, category)
    {
      this.itemNumber := itemNumber;
      this.description := description;
      this.price := price;
      this.brandName := brandName;
      this.weight := weight;
      this.length := length;
      this.height := height;
      this.color := color;
      this.numberOfItems := numberOfItems;
      this.category := category;
    }

    /** The copy constructor: a new object with the same field values, unchecked. */
    constructor Copy(source: Item)
      ensures Value() == source.Value()
    {
      itemNumber := source.itemNumber;
      description := source.description;
      price := source.price;
      brandName := source.brandName;
      weight := source.weight;
      length := source.length;
      height := source.height;
      color := source.color;
      numberOfItems := source.numberOfItems;
      category := source.category;
    }

    method SetNewPrice(newPrice: real)
      modifies this
      ensures Value() == old(Value()).(price := newPrice)
    {
      price := newPrice;
    }

    method SetNewNumberOfItems(newNumberOfItems: Int32)
      modifies this
      ensures Value() == old(Value()).(numberOfItems := newNumberOfItems)
    {
      numberOfItems := newNumberOfItems;
    }

    method SetNewDescription(newDescription: string)
      modifies this
      ensures Value() == old(Value()).(description := newDescription)
    {
      description := newDescription;
    }
  }
}
