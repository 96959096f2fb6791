# Stock register for a flooring and building-materials shop

This project models the core of a small Java warehouse program. An `Item` is a stock record: number, description, price, brand, weight, length, height, colour, units in stock and a category number. The constructor validates the record, a copy constructor clones it, and three setters change the mutable fields. The `Category` enum maps the numbers 1 to 4 to product groups. An `ItemRegister` keeps an `ArrayList<Item>` and offers these operations:

- adding an item, which rejects a number already in use, ignoring case;
- lookups by number, description, category and price range, which return copies;
- in-place edits of stock, price and description;
- stable sorts by price, colour and brand;
- totals;
- a set of five sample items;
- a delete operation.

## Layout

| file | module | contents |
|---|---|---|
| `wrappers.dfy` | `Wrappers` | `Option`, `Result` and `Outcome`, which replace null results and thrown exceptions |
| `java_int.dfy` | `JavaInt` | Java `int`: the `Int32` range and two's-complement wrap-around (`Wrap32`) |
| `text.dfy` | `Text` | `isBlank`, ASCII `toLowerCase`, `equalsIgnoreCase`, `contains` and `compareTo` (as the order `LexLeq`), with their laws |
| `category.dfy` | `Categories` | the `Category` enum, its numbers and `getCategory` |
| `items.dfy` | `Items` | the constructor's validation chain (`Validate`) and the mutable `class Item` |
| `stable_sort.dfy` | `StableSort` | a stable insertion sort over keyed values: the meaning of `List.sort` with `Comparator.comparing` |
| `register_spec.dfy` | `RegisterSpec` | the register as a value (`seq<ItemValue>`): what each operation computes, and the lemmas about it |
| `item_register.dfy` | `Register` | `class ItemRegister` with its `items: seq<Item>` field and one method per Java method, each proved against `RegisterSpec` |

`ItemRegister.Valid()` holds the invariant that no two stored numbers are equal ignoring case. `Contents()` is the list of the stored items' field values.

The `final` Java fields are `const` fields of `Item`. The only fields an edit can touch are therefore `description`, `numberOfItems` and `price`, and `Valid()` survives every in-place edit without extra proof.

The source throws exceptions; the model returns an `Outcome` or `Result` error instead. `newItem` checks validity first and duplicates second, as the Java code does.

The sample item `477B` has height `12` in `addDefaultItems` (src/ItemRegister.java:314-316), and `DefaultItems` uses `12.0`.

## Model

| member | source | states |
|---|---|---|
| Categories.GetCategory | src/Category.java:28-37 | succeeds exactly for 1 ≤ n ≤ 4, and the category found carries number n |
| Categories.CategoryNumber | src/Category.java:7-21 | every constant carries a number from 1 to 4 |
| Categories.CategoryTable | src/Category.java:7-10 | 1 → laminate flooring, 2 → windows, 3 → doors, 4 → lumber |
| Categories.FirstWithNumber | src/Category.java:29-34 | the constant found is in the list and carries number n; with none found, no constant of the list carries n |
| Categories.GetCategoryOfNumber | src/Category.java:14-34 | looking up a constant's own number gives that constant back |
| Categories.CategoryNumbersDistinct | src/Category.java:7-10 | different constants carry different numbers |
| JavaInt.Wrap32 | src/ItemRegister.java:172 | the `int` result is the exact sum when that is in range, and is congruent to it modulo 2^32 otherwise |
| JavaInt.WrapAdd | src/ItemRegister.java:302-306 | adding one term at a time with wrap-around equals wrapping the exact total once |
| Text.IsBlank | src/Item.java:18 | the empty string is blank; a string holding an ASCII letter or digit is not |
| Text.ToLower | src/ItemRegister.java:121 | lower-casing keeps the length and leaves no upper-case ASCII letter |
| Text.EqualsIgnoreCase | src/ItemRegister.java:22 | equal strings are equal ignoring case, and strings equal ignoring case have the same length |
| Text.EqualsIgnoreCaseIsLowerEquality | src/ItemRegister.java:22 | two strings are equal ignoring case exactly when their lower-cased forms are equal |
| Text.EqualsIgnoreCaseIsEquivalence | src/ItemRegister.java:22 | `equalsIgnoreCase` is reflexive, symmetric and transitive |
| Text.Contains | src/ItemRegister.java:121 | `contains` holds exactly when the query occurs at some position of the text |
| Text.LexLeq | src/ItemRegister.java:256 | a prefix of a string sorts before or equal to it |
| Text.LexLeqReflexive | src/ItemRegister.java:256 | `compareTo` ≤ 0 is reflexive |
| Text.LexLeqAntisymmetric | src/ItemRegister.java:256 | two strings that are each ≤ the other are equal |
| Text.LexLeqTransitive | src/ItemRegister.java:256 | the string order is transitive |
| Text.LexLeqTotal | src/ItemRegister.java:266 | any two strings are comparable |
| Items.Validate | src/Item.java:18-38 | the constructor accepts exactly the well-formed records |
| Items.ValidateReportsFirstViolation | src/Item.java:18-38 | accepted exactly when well formed; each error is reported exactly when its check is the first one violated, in source order |
| Items.ValidateBoundaries | src/Item.java:24-38 | price 0 and stock 0 are accepted; weight, length or height 0 are rejected with their own error |
| Items.ValidateIgnoresUncheckedFields | src/Item.java:15-50 | category, description and colour are never checked |
| Items.Item.constructor | src/Item.java:15-50 | given a record that passes the checks, every field equals its argument |
| Items.Item.Copy | src/Item.java:52-63 | the copy is a new object whose fields equal the source's, with no checks |
| Items.Item.SetNewPrice | src/Item.java:164-167 | changes the price and nothing else |
| Items.Item.SetNewNumberOfItems | src/Item.java:173-176 | changes the stock count and nothing else |
| Items.Item.SetNewDescription | src/Item.java:182-185 | changes the description and nothing else |
| StableSort.Sort | src/ItemRegister.java:246 | the stable sort `List.sort` performs keeps the number of entries |
| StableSort.SortPermutes | src/ItemRegister.java:245-268 | sorting is a permutation of the (item, key) entries |
| StableSort.SortKeepsElements | src/ItemRegister.java:245-268 | sorting is a permutation of the items themselves |
| StableSort.SortByKey | src/ItemRegister.java:245-268 | sorting items by a key read from each one yields the same items, each still paired with its own key, in non-decreasing key order |
| StableSort.SortSorted | src/ItemRegister.java:245-268 | under a total order the result is non-decreasing by key |
| StableSort.SortStable | src/ItemRegister.java:245-268 | items with equal keys keep their relative order |
| RegisterSpec.DescriptionContains | src/ItemRegister.java:121 | the description test as written: the empty query matches every item |
| RegisterSpec.Selects | src/ItemRegister.java:103 | the per-item tests of the lookups (also :121, :139-140, :155 and :279): a number selects its own item, the empty description query selects every item, and an empty price range selects nothing |
| RegisterSpec.FirstIndex | src/ItemRegister.java:101-107 | the position found is selected and no earlier item is; with no position, nothing is selected |
| RegisterSpec.FindFirst | src/ItemRegister.java:101-107 | succeeds exactly when some item is selected, returns the first one, and fails with the given error otherwise |
| RegisterSpec.FirstAsList | src/ItemRegister.java:116-128 | a one-element list holding a stored, selected item, or `NoItemsFound` |
| RegisterSpec.FindAll | src/ItemRegister.java:275-285 | the documented lookups: a non-empty list of at most the stored items, or `NoItemsFound` |
| RegisterSpec.AllMatching | src/ItemRegister.java:150-161 | the matches are never more than the stored items |
| RegisterSpec.AllMatchingSelectsExactly | src/ItemRegister.java:150-161 | every returned item is stored and selected, and every selected stored item is returned |
| RegisterSpec.AllMatchingAppend | src/ItemRegister.java:154-158 | one more stored item adds itself at the end of the matches exactly when it is selected |
| RegisterSpec.FirstAsListIsHeadOfAll | src/ItemRegister.java:116-128 | the one-element answer is the head of the full list of matches, and both fail on the same inputs |
| RegisterSpec.Add | src/ItemRegister.java:43-54 | a success means a well-formed item with an unused number appended at the end; a failure is a validation error or `DuplicateItemNumber` |
| RegisterSpec.AddOutcome | src/ItemRegister.java:43-54 | adding succeeds exactly for a well-formed item with an unused number and appends it; an invalid item gives its validation error before any duplicate check |
| RegisterSpec.AddKeepsNumbersUnique | src/ItemRegister.java:43-54 | adding keeps stored numbers distinct ignoring case |
| RegisterSpec.AddThenFind | src/ItemRegister.java:101-107 | after a successful add, a lookup by the new number returns the new item |
| RegisterSpec.MatchIsUnique | src/ItemRegister.java:20-27 | with unique numbers at most one stored item matches a given number |
| RegisterSpec.FindByNumberFindsTheMatch | src/ItemRegister.java:101-107 | the lookup returns the unique match, wherever it is stored |
| RegisterSpec.AddAll | src/ItemRegister.java:313-325 | the store grows by a prefix of the batch, in order: all of it after a full run, strictly less after a failure |
| RegisterSpec.AddAllAccepts | src/ItemRegister.java:313-325 | a batch of well-formed items with fresh, distinct numbers is stored whole and in order |
| RegisterSpec.DefaultItems | src/ItemRegister.java:313-325 | the five records `addDefaultItems` passes to `newItem` |
| RegisterSpec.DefaultItemsHaveCategories | src/ItemRegister.java:313-325 | every sample record carries a category number that `getCategory` accepts |
| RegisterSpec.DefaultNumbersDistinct | src/ItemRegister.java:313-325 | the five sample numbers are distinct ignoring case |
| RegisterSpec.DefaultItemsWellFormed | src/ItemRegister.java:313-325 | every sample item passes the constructor's checks |
| RegisterSpec.DefaultItemsAllAccepted | src/ItemRegister.java:313-325 | on an empty register all five sample items are stored in order |
| RegisterSpec.AddDefaultStep | src/ItemRegister.java:313-325 | once the first k sample items are in, adding item k decides the rest: its failure ends the run, its success continues with item k + 1 |
| RegisterSpec.Apply | src/ItemRegister.java:169-238 | an edit never changes the item number or the category |
| RegisterSpec.UpdateMatching | src/ItemRegister.java:169-238 | the edited list has the same length and the same item numbers |
| RegisterSpec.ApplyChangesOneField | src/ItemRegister.java:169-238 | each edit changes only its own field; number, brand, colour, category and dimensions never change |
| RegisterSpec.UpdateChangesOnlyTheMatch | src/ItemRegister.java:169-238 | without a match nothing changes; with one, only that item changes; numbers stay unique |
| RegisterSpec.Decrease | src/ItemRegister.java:184-196 | a success keeps the list's length; the only failure is `StockWouldGoNegative` |
| RegisterSpec.DecreaseAt | src/ItemRegister.java:187-193 | a success keeps the length and leaves a non-negative count at the edited position; the only failure is `StockWouldGoNegative` |
| RegisterSpec.DecreaseAtMatch | src/ItemRegister.java:184-196 | with unique numbers, the match at i is the one found, and the outcome is decided by its new count |
| RegisterSpec.DecreaseFailsOnlyBelowZero | src/ItemRegister.java:184-196 | fails exactly when a stored item with the number would get a negative count |
| RegisterSpec.DecreaseIsNegatedIncrease | src/ItemRegister.java:184-196 | a successful decrease by n is the increase by -n: only the matching count changes |
| RegisterSpec.DecreaseNeverGoesNegative | src/ItemRegister.java:184-196 | a successful decrease leaves no negative count behind and keeps the numbers unique |
| RegisterSpec.TotalUnits | src/ItemRegister.java:301-307 | the exact stock total is non-negative when every count is |
| RegisterSpec.TotalUnitsUpdate | src/ItemRegister.java:301-307 | replacing one item moves the total by the difference of the two counts |
| RegisterSpec.IncreaseMovesTotal | src/ItemRegister.java:169-176 | without a match the list is unchanged; with one whose new count does not overflow, the total grows by exactly n |
| RegisterSpec.IncreaseKeepsStockNonNegative | src/ItemRegister.java:169-176 | adding a non-negative amount keeps every count non-negative as long as the matching count plus the amount fits in an `int` |
| RegisterSpec.IncreaseOverflowsOnFullStock | src/ItemRegister.java:172 | as written, one more unit on a count of 2147483647 stores -2147483648, a negative stock |
| RegisterSpec.Increase | src/ItemRegister.java:169-176 | the corrected increase: a success keeps the length; a failure, negative or overflowing, happens only for a stored number |
| RegisterSpec.IncreaseAt | src/ItemRegister.java:172-173 | a success keeps the length and leaves a non-negative count at the edited position; a failure is `StockWouldGoNegative` or `StockWouldOverflow` |
| RegisterSpec.IncreaseFailsOutsideRange | src/ItemRegister.java:169-176 | the corrected increase fails exactly when a stored item with the number would get a count outside 0..2147483647 |
| RegisterSpec.IncreaseAgreesWhenInRange | src/ItemRegister.java:169-176 | when the corrected increase succeeds it stores what the written increase stores |
| RegisterSpec.IncreaseStaysInRange | src/ItemRegister.java:169-176 | the corrected increase keeps every count non-negative and, for a stored number, moves the total by exactly n |
| RegisterSpec.IncreaseAtMatch | src/ItemRegister.java:169-176 | with unique numbers, the corrected increase is decided by the stored match |
| RegisterSpec.DecreaseMovesTotal | src/ItemRegister.java:184-196 | for a stored number whose count is non-negative and an amount n ≥ 0, a successful decrease lowers the total by exactly n |
| RegisterSpec.DiscountStaysInRange | src/ItemRegister.java:218-225 | a discount of 0–100 % keeps a non-negative price between 0 and the old price |
| RegisterSpec.Listing | src/ItemRegister.java:61-71 | the listing has at least one character, a line break, per item |
| RegisterSpec.ListingConcat | src/ItemRegister.java:61-71 | the listing of two lists joined is the two listings joined: one line per item, in store order |
| RegisterSpec.PrintAll | src/ItemRegister.java:61-71 | printing fails, with `NoItemsFound`, exactly on an empty register and otherwise yields at least one character per item |
| RegisterSpec.UppercaseQueryNeverMatches | src/ItemRegister.java:121 | a query with an upper-case letter matches no description |
| RegisterSpec.DescriptionContainsIgnoringCaseProperties | src/ItemRegister.java:121 | the corrected test ignores the query's case and agrees with the written test on lower-case queries |
| RegisterSpec.CapitalisedQueryOnSampleData | src/ItemRegister.java:116-128 | "Big" misses "Big and heavy" as written and finds it once lower-cased |
| RegisterSpec.PriceRangeLosesMatchesOnSampleData | src/ItemRegister.java:275-285 | on the sample data the range 0–5000 selects all five items, but only the first is returned |
| RegisterSpec.RemoveFirst | src/ItemRegister.java:326-340 | deletion as documented: one item fewer on success, and `ItemNotFound` as the only failure |
| RegisterSpec.RemoveFirstRemovesTheItem | src/ItemRegister.java:327-340 | deletion as documented succeeds exactly for a stored number, removes that one item and no other, and keeps numbers unique |
| Register.PermutationKeepsNumbersDistinct | src/ItemRegister.java:245-268 | reordering the stored items keeps their numbers distinct |
| Register.RemoveObject | src/ItemRegister.java:336 | `ArrayList.remove(Object)`: an absent object leaves the list as it is; a present one is removed once |
| Register.RemoveObjectFirst | src/ItemRegister.java:336 | the object removed is the first occurrence, and the elements before and after it keep their order |
| Register.ValuesOfCategory | src/ItemRegister.java:150-161 | filtering the stored objects by category and reading their values equals filtering the values |
| Register.NumbersDistinguishObjects | src/ItemRegister.java:6-8 | items with distinct numbers are distinct objects, so an edit through one setter changes one record |
| Register.ItemRegister.constructor | src/ItemRegister.java:10-12 | a new register is empty and valid |
| Register.ItemRegister.TestForDuplicateItemNumber | src/ItemRegister.java:20-27 | true exactly when some stored number equals the argument ignoring case |
| Register.ItemRegister.NewItem | src/ItemRegister.java:43-54 | the outcome and the new contents are those of `Add`; a failure leaves the list untouched; a success appends one fresh item |
| Register.ItemRegister.PrintAllItems | src/ItemRegister.java:61-71 | the text is one rendered line per item in store order, or a failure on an empty register |
| Register.ItemRegister.IndexOfFirst | src/ItemRegister.java:101-107 | the scan returns the position of the first selected item |
| Register.ItemRegister.FindItemWithItemNumber | src/ItemRegister.java:101-108 | a fresh copy of the first match ignoring case, or `ItemNotFound` |
| Register.ItemRegister.FindItemWithDescription | src/ItemRegister.java:116-128 | a one-element list holding a fresh copy of the first item whose lower-cased description contains the text, or `NoItemsFound` |
| Register.ItemRegister.FindItemWithItemNumberAndDescription | src/ItemRegister.java:137-145 | a fresh copy of the first item matching both tests, or `ItemNotFound` |
| Register.ItemRegister.FindItemsByCategory | src/ItemRegister.java:150-161 | fresh copies of every item of that category, in store order; possibly empty, never a failure (the scan and the copying are two loops) |
| Register.ItemRegister.CopyAll | src/ItemRegister.java:155-157 | one fresh copy per object, with equal fields, in the same order |
| Register.ItemRegister.FindAllItemsBetweenPrice | src/ItemRegister.java:275-285 | a one-element list holding a fresh copy of the first item priced within the closed range, or `NoItemsFound` |
| Register.ItemRegister.ApplyToMatching | src/ItemRegister.java:169-238 | the new contents are the old ones with the edit applied to every matching item |
| Register.ItemRegister.EditItem | src/ItemRegister.java:169-238 | one record changes as the edit prescribes: wrapped stock sum, new price, discounted price or new description |
| Register.ItemRegister.IncreaseAmountOfOneItem | src/ItemRegister.java:169-176 | the matching count grows by n with `int` wrap-around; a no-op without a match |
| Register.ItemRegister.DecreaseAmountOfOneItem | src/ItemRegister.java:184-196 | outcome and contents are those of `Decrease`; a failure leaves every count as it was |
| Register.ItemRegister.IncreaseAmountChecked | src/ItemRegister.java:169-176 | the corrected increase: outcome and contents are those of `Increase`; a failure leaves the list untouched |
| Register.ItemRegister.ChangePriceOnAnItem | src/ItemRegister.java:204-210 | the matching price is overwritten, unchecked; a no-op without a match |
| Register.ItemRegister.GiveDiscountOnAnItem | src/ItemRegister.java:218-225 | the matching price becomes `price - price * d / 100` |
| Register.ItemRegister.ChangeDescriptionOnAnItem | src/ItemRegister.java:232-238 | the matching description is overwritten |
| Register.ItemRegister.SetNumberOfItemsAt | src/ItemRegister.java:190-192 | one stored count changes and no other record does |
| Register.ItemRegister.SortItemsByPrice | src/ItemRegister.java:245-248 | the stored list becomes the stable sort of itself by price: a permutation, non-decreasing in price; it returns a sequence equal to the stored one, holding the same objects |
| Register.ItemRegister.SortItemsByColor | src/ItemRegister.java:255-258 | the same, ordered by colour under `compareTo` |
| Register.ItemRegister.SortItemsByBrandName | src/ItemRegister.java:265-268 | the same, ordered by brand name |
| Register.ItemRegister.GetNumberOfItems | src/ItemRegister.java:292-294 | the number of stored records |
| Register.ItemRegister.GetNumberOfIndividualItems | src/ItemRegister.java:301-307 | the sum of all stock counts, wrapped to `int` |
| Register.ItemRegister.AddDefaultItems | src/ItemRegister.java:313-325 | the contents and outcome are those of adding the five sample items one after another, stopping at the first rejection |
| Register.ItemRegister.AddSampleItem | src/ItemRegister.java:314-324 | adding sample item k by `newItem` keeps the register valid and performs step k of the run |
| Register.ItemRegister.DeleteAnItem | src/ItemRegister.java:332-340 | as written: the list never changes and the call always fails with `ItemNotFound` |
| Register.ItemRegister.RemoveAnItem | src/ItemRegister.java:327-340 | as documented: the contents become those of `RemoveFirst`, which removes the one stored match, or the call fails when there is none |
| Register.EditReturnedCopy | src/ItemRegister.java:101-108 | changing the item a lookup returned leaves the register as it was, so a second lookup gives the same answer |

## Left out

- `Client.java`, the console menu, is not part of this model. Its input parsing and range checks happen on the caller's side.
- `printItem` and `printItemsSmallString` are console output. `printItem` prints every item whose number matches. `printItemsSmallString` prints a given list and throws `IllegalArgumentException` on an empty one (src/ItemRegister.java:87-95). That rejection is the rule `PrintAll` states for `printAllItems`.
- The exact text of `toString`, `toSmallString` and `printAllItems` is left out. `PrintAllItems` takes the rendering of one item as a parameter, because Java's `double` formatting is not modelled.
- `Item.getCategoryNumber()` calls a static `Category.getCategoryNumber(int)` that does not exist (the enum's method is an instance method), so the call has no meaning to model.
- Getters are read as the fields themselves.
- Prices and measures are `real`, not IEEE-754 `double`. The discount's rounding and the ordering of NaN prices in the price sort are not captured.
- `DiscountStaysInRange`: stated for exact arithmetic only, because rounding of `double` is not modelled.
- `equalsIgnoreCase`, `toLowerCase` and `isBlank` cover ASCII letters and the ASCII whitespace characters only, not full Unicode case folding or Unicode spaces. The no-argument `toLowerCase()` at src/ItemRegister.java:121 and :140 uses the default locale; the model assumes a locale that maps `A`–`Z` to `a`–`z`, which a Turkish locale does not (it maps `I` to `ı`).
- `compareTo` is modelled as the lexicographic order on characters. It has the same sign as Java's UTF-16 comparison for characters in the Basic Multilingual Plane.
- `NullPointerException` and `IllegalArgumentException` become error values of `RegisterError` and `ItemError`. The exception classes and messages are not modelled.
- `SortItemsByPrice`, `SortItemsByColor`, `SortItemsByBrandName`: Java returns the register's own live `ArrayList` (src/ItemRegister.java:247, 257, 267), so a caller can add, remove or reorder through it and bypass `newItem`'s duplicate check. The model returns a sequence value; only the `Item` objects are shared. Changes made through the returned list, and the loss of unique numbers they allow, are not captured.
- The sorts are specified by a stable insertion sort, the ordering `List.sort` promises. The merge sort Java actually runs is not modelled.

## Findings

| source | as written | input that shows it | evidently intended | confidence | as-written member | corrected member |
|---|---|---|---|---|---|---|
| src/ItemRegister.java:332-340 | `deleteAnItem` removes a fresh copy, which `Item` (having no `equals`) never finds in the list, then always throws | any register and any stored number, e.g. "477B" after `addDefaultItems` | remove the stored item with that number, and fail only when there is none | high, not executed | Register.ItemRegister.DeleteAnItem | Register.ItemRegister.RemoveAnItem |
| src/ItemRegister.java:275-285 | `findAllItemsBetweenPrice` returns as soon as the first item in range is added | the sample items with range 0–5000: all five are in range, only "477B" is returned | every item in the range, which `FindAll` returns (`AllMatchingSelectsExactly` proves it returns each selected item and nothing else) | medium, not executed | RegisterSpec.PriceRangeLosesMatchesOnSampleData | RegisterSpec.FindAll |
| src/ItemRegister.java:116-128 | `findItemWithDescription` lower-cases the stored description but not the query, so it expects a lower-case query; its only caller, the console menu (src/Client.java:147), lower-cases it first | the query "Big" against "Big and heavy", from any caller that does not lower-case first | match ignoring case on both sides | low, not executed | RegisterSpec.UppercaseQueryNeverMatches | RegisterSpec.DescriptionContainsIgnoringCaseProperties |
| src/ItemRegister.java:172 | `increaseAmountOfOneItem` adds in `int` with no range check, so the stored count wraps around; the console menu checks only that the amount is positive (src/Client.java:213) | a stored count of 2147483647 increased by 1 becomes -2147483648 | reject a count outside 0..2147483647, as `decreaseAmountOfOneItem` rejects a negative one | medium, not executed | RegisterSpec.IncreaseOverflowsOnFullStock | Register.ItemRegister.IncreaseAmountChecked |
